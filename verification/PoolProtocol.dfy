/**
 The preconnection pool of relay-rs/src/pool.rs as a concurrent protocol: the main thread takes, the
 maintainer sweeps and asks for refills, the workers connect.  An atomic step is one lock-held
 region, one channel operation, or one step made by a thread on what only it holds.
 */
module PoolProtocol {
  import opened Wrappers
  import opened Jitter
  import opened PoolModel

  /** A worker waits for a request, or is inside `refill_one`, with or without a socket. */
  datatype Worker = Idle | Starting | Connecting(fd: nat)

  /** The main thread: in step 2 of `take_live_unlocked`, `at` being the instant it compares with. */
  datatype Taker = Away | Checking(rest: seq<Entry>, unused: seq<Entry>, result: Option<Entry>, at: nat)

  /** The maintainer: asleep, or between the sweep's two lock-held regions. */
  datatype Sweeper = Asleep | Sweeping(batch: seq<Entry>, alive: seq<Entry>, swept: bool, at: nat)

  /** A pooled socket given to a client, and when it was checked. */
  datatype Handout = Handout(entry: Entry, at: nat)

  datatype State = State(
    pool: Pool,
    queue: nat,               // refill requests in the channel
    workers: seq<Worker>,
    taker: Taker,
    sweeper: Sweeper,
    clients: multiset<nat>,   // descriptors that serve a client
    closed: multiset<nat>,
    handed: seq<Handout>,     // every socket ever handed out
    nextFd: nat,              // how many descriptors have been opened
    clock: nat)

  datatype Step =
    | TakerPop(now: nat)
    | TakerCheck(dead: bool)
    | TakerDone
    | Wake(now: nat, sweep: bool)
    | SweepCheck(dead: bool)
    | Tick(rotate: bool, accepts: nat)
    | Receive(w: nat)
    | Open(w: nat)
    | Succeed(w: nat, now: nat)
    | Fail(w: nat, now: nat)
    | Hangup(fd: nat)

  function Init(cfg: Config, seed: Word): State {
    State(Pool([], 0, 0, None, seed), 0, seq(cfg.refillBatch, _ => Idle), Away, Asleep,
          multiset{}, multiset{}, [], 0, 0)
  }

  predicate Enabled(cfg: Config, s: State, step: Step) {
    match step
    case TakerPop(now) => s.taker.Away? && now >= s.clock
    case TakerCheck(_) => s.taker.Checking? && s.taker.rest != []
    case TakerDone => s.taker.Checking? && s.taker.rest == []
    case Wake(now, _) => s.sweeper.Asleep? && now >= s.clock
    case SweepCheck(_) => s.sweeper.Sweeping? && s.sweeper.batch != []
    case Tick(_, _) => s.sweeper.Sweeping? && s.sweeper.batch == []
    case Receive(w) => w < |s.workers| && s.workers[w].Idle? && s.queue > 0
    case Open(w) => w < |s.workers| && s.workers[w].Starting?
    case Succeed(w, now) => w < |s.workers| && s.workers[w].Connecting? && now >= s.clock
    case Fail(w, now) => w < |s.workers| && !s.workers[w].Idle? && now >= s.clock
    case Hangup(fd) => fd in s.clients
  }

  function SweepBatch(cfg: Config): nat {
    if cfg.poolSize / 4 > 8 then cfg.poolSize / 4 else 8
  }

  function Apply(cfg: Config, s: State, step: Step): State
    requires Enabled(cfg, s, step)
  {
    match step
    case TakerPop(now) =>
      var (pool, batch) := PopBatch(s.pool, BATCH);
      s.(pool := pool, clock := now, taker := if batch == [] then Away else Checking(batch, [], None, now))
    case TakerCheck(dead) => TakerChecks(s, dead)
    case TakerDone =>
      var (pool, surplus) := Restore(cfg, s.pool, s.taker.unused);
      var t := s.(pool := pool, closed := Close(s.closed, surplus), taker := Away);
      if s.taker.result.None? then t
      else
        var e := s.taker.result.value;
        t.(clients := s.clients + multiset{e.fd}, handed := s.handed + [Handout(e, s.taker.at)])
    case Wake(now, sweep) =>
      if !sweep then s.(clock := now, sweeper := Sweeping([], [], false, now))
      else
        var (pool, batch) := PopBatch(s.pool, SweepBatch(cfg));
        s.(pool := pool, clock := now, sweeper := Sweeping(batch, [], true, now))
    case SweepCheck(dead) =>
      var Sweeping(batch, alive, swept, at) := s.sweeper;
      if dead then s.(sweeper := Sweeping(batch[1..], alive, swept, at), closed := s.closed + multiset{batch[0].fd})
      else s.(sweeper := Sweeping(batch[1..], alive + [batch[0]], swept, at))
    case Tick(rotate, accepts) =>
      var (pool, dropped) := Renew(cfg, s.pool, s.sweeper.alive, rotate, s.sweeper.at);
      var wanted := Wanted(cfg, |pool.entries|, pool.pending, Paused(pool, s.sweeper.at));
      var sent := Min(accepts, wanted);
      s.(pool := pool.(pending := pool.pending + sent), queue := s.queue + sent, sweeper := Asleep,
         closed := Close(s.closed, dropped))
    case Receive(w) => s.(queue := s.queue - 1, workers := s.workers[w := Starting])
    case Open(w) => s.(workers := s.workers[w := Connecting(s.nextFd)], nextFd := s.nextFd + 1)
    case Succeed(w, now) =>
      var fd := s.workers[w].fd;
      var (pool, ok) := Success(cfg, s.pool, fd, now);
      s.(pool := pool, clock := now, workers := s.workers[w := Idle],
         closed := if ok then s.closed else s.closed + multiset{fd})
    case Fail(w, now) =>
      s.(pool := PoolModel.Fail(cfg, s.pool, now), clock := now, workers := s.workers[w := Idle],
         closed := if s.workers[w].Connecting? then s.closed + multiset{s.workers[w].fd} else s.closed)
    case Hangup(fd) => s.(clients := s.clients - multiset{fd}, closed := s.closed + multiset{fd})
  }

  /** Closing entries one by one. */
  function Close(closed: multiset<nat>, es: seq<Entry>): multiset<nat> {
    if es == [] then closed else Close(closed, es[..|es| - 1]) + multiset{es[|es| - 1].fd}
  }

  /** One candidate: spared once a socket is found, else taken, or closed if dead or expired. */
  function TakerChecks(s: State, dead: bool): State
    requires s.taker.Checking? && s.taker.rest != []
  {
    var Checking(rest, unused, result, at) := s.taker;
    var e := rest[0];
    if result.Some? then s.(taker := Checking(rest[1..], unused + [e], result, at))
    else if !dead && Fresh(e, at) then s.(taker := Checking(rest[1..], unused, Some(e), at))
    else s.(taker := Checking(rest[1..], unused, None, at), closed := s.closed + multiset{e.fd})
  }

  /** The state after a run of steps, if each was possible in its turn. */
  function Run(cfg: Config, seed: Word, steps: seq<Step>): Option<State> {
    if steps == [] then Some(Init(cfg, seed))
    else
      var n := |steps| - 1;
      match Run(cfg, seed, steps[..n])
      case None => None
      case Some(s) => if Enabled(cfg, s, steps[n]) then Some(Apply(cfg, s, steps[n])) else None
  }

  // ---- Where the descriptors are ----

  function One(b: bool): nat {
    if b then 1 else 0
  }

  /** How often a descriptor occurs in a list of entries. */
  function Count(es: seq<Entry>, fd: nat): (n: nat)
    ensures n <= |es|
  {
    if es == [] then 0 else Count(es[..|es| - 1], fd) + One(es[|es| - 1].fd == fd)
  }

  function CountWorkers(ws: seq<Worker>, fd: nat): nat {
    if ws == [] then 0 else CountWorkers(ws[..|ws| - 1], fd) + One(ws[|ws| - 1] == Connecting(fd))
  }

  function CountTaker(t: Taker, fd: nat): nat {
    if t.Away? then 0
    else Count(t.rest, fd) + Count(t.unused, fd) + One(t.result.Some? && t.result.value.fd == fd)
  }

  function CountSweeper(m: Sweeper, fd: nat): nat {
    if m.Asleep? then 0 else Count(m.batch, fd) + Count(m.alive, fd)
  }

  /** In how many places a descriptor is: pool, workers, taker, sweeper, clients, or closed. */
  function Places(s: State, fd: nat): nat {
    Count(s.pool.entries, fd) + CountWorkers(s.workers, fd) + CountTaker(s.taker, fd) + CountSweeper(s.sweeper, fd)
    + s.clients[fd] + s.closed[fd]
  }

  lemma {:induction false} CountConcat(a: seq<Entry>, b: seq<Entry>, fd: nat)
    ensures Count(a + b, fd) == Count(a, fd) + Count(b, fd)
  {
    if b == [] {
      assert a + b == a;
    } else {
      assert (a + b)[..|a + b| - 1] == a + b[..|b| - 1];
      CountConcat(a, b[..|b| - 1], fd);
    }
  }

  lemma CountSplit(es: seq<Entry>, k: nat, fd: nat)
    requires k <= |es|
    ensures Count(es, fd) == Count(es[..k], fd) + Count(es[k..], fd)
  {
    assert es == es[..k] + es[k..];
    CountConcat(es[..k], es[k..], fd);
  }

  lemma CountPush(es: seq<Entry>, e: Entry, fd: nat)
    ensures Count(es + [e], fd) == Count(es, fd) + One(e.fd == fd)
  {
    assert (es + [e])[..|es|] == es;
  }

  lemma CountHead(es: seq<Entry>, fd: nat)
    requires es != []
    ensures Count(es, fd) == One(es[0].fd == fd) + Count(es[1..], fd)
  {
    CountSplit(es, 1, fd);
    CountPush([], es[0], fd);
    assert es[..1] == [] + [es[0]];
  }

  lemma {:induction false} CountClosed(closed: multiset<nat>, es: seq<Entry>, fd: nat)
    ensures Close(closed, es)[fd] == closed[fd] + Count(es, fd)
  {
    if es != [] {
      CountClosed(closed, es[..|es| - 1], fd);
    }
  }

  lemma {:induction false} CountPartition(es: seq<Entry>, now: nat, fd: nat)
    ensures Count(Partition(es, now).0, fd) + Count(Partition(es, now).1, fd) == Count(es, fd)
  {
    if es != [] {
      var n := |es| - 1;
      CountPartition(es[..n], now, fd);
      var (kept, dropped) := Partition(es[..n], now);
      CountPush(kept, es[n], fd);
      CountPush(dropped, es[n], fd);
    }
  }

  lemma {:induction false} CountWorkersUpdate(ws: seq<Worker>, w: nat, v: Worker, fd: nat)
    requires w < |ws|
    ensures CountWorkers(ws[w := v], fd) + One(ws[w] == Connecting(fd))
            == CountWorkers(ws, fd) + One(v == Connecting(fd))
  {
    var n := |ws| - 1;
    if w == n {
      assert ws[w := v][..n] == ws[..n];
    } else {
      assert ws[w := v][..n] == ws[..n][w := v];
      CountWorkersUpdate(ws[..n], w, v, fd);
    }
  }

  lemma CountRestore(cfg: Config, p: Pool, es: seq<Entry>, fd: nat)
    ensures Count(Restore(cfg, p, es).0.entries, fd) + Count(Restore(cfg, p, es).1, fd)
            == Count(p.entries, fd) + Count(es, fd)
  {
    var fit := Min(|es|, SatSub(cfg.poolSize, |p.entries|));
    CountConcat(p.entries, es[..fit], fd);
    CountSplit(es, fit, fd);
  }

  lemma CountRenew(cfg: Config, p: Pool, alive: seq<Entry>, rotate: bool, now: nat, fd: nat)
    ensures Count(Renew(cfg, p, alive, rotate, now).0.entries, fd) + Count(Renew(cfg, p, alive, rotate, now).1, fd)
            == Count(p.entries, fd) + Count(alive, fd)
  {
    CountRestore(cfg, p, alive, fd);
    var (q, surplus) := Restore(cfg, p, alive);
    if rotate {
      CountPartition(q.entries, now, fd);
      CountConcat(surplus, Partition(q.entries, now).1, fd);
    }
  }

  lemma KeptByTakerPop(cfg: Config, s: State, now: nat, fd: nat)
    requires Enabled(cfg, s, TakerPop(now))
    ensures Places(Apply(cfg, s, TakerPop(now)), fd) == Places(s, fd)
  {
    CountSplit(s.pool.entries, |s.pool.entries| - Min(|s.pool.entries|, BATCH), fd);
  }

  lemma KeptByTakerCheck(cfg: Config, s: State, dead: bool, fd: nat)
    requires Enabled(cfg, s, TakerCheck(dead))
    ensures Places(TakerChecks(s, dead), fd) == Places(s, fd)
  {
    var Checking(rest, unused, result, at) := s.taker;
    var e := rest[0];
    CountHead(rest, fd);
    if result.Some? {
      CountPush(unused, e, fd);
      assert TakerChecks(s, dead) == s.(taker := Checking(rest[1..], unused + [e], result, at));
    } else if !dead && Fresh(e, at) {
      assert TakerChecks(s, dead) == s.(taker := Checking(rest[1..], unused, Some(e), at));
    } else {
      assert TakerChecks(s, dead)
             == s.(taker := Checking(rest[1..], unused, None, at), closed := s.closed + multiset{e.fd});
    }
  }

  lemma KeptByTakerDone(cfg: Config, s: State, fd: nat)
    requires Enabled(cfg, s, TakerDone)
    ensures Places(Apply(cfg, s, TakerDone), fd) == Places(s, fd)
  {
    var Checking(rest, unused, result, at) := s.taker;
    var (pool, surplus) := Restore(cfg, s.pool, unused);
    var t := s.(pool := pool, closed := Close(s.closed, surplus), taker := Away);
    CountRestore(cfg, s.pool, unused, fd);
    CountClosed(s.closed, surplus, fd);
    assert Count(rest, fd) == 0;
    if result.Some? {
      var e := result.value;
      assert Apply(cfg, s, TakerDone)
             == t.(clients := s.clients + multiset{e.fd}, handed := s.handed + [Handout(e, at)]);
    } else {
      assert Apply(cfg, s, TakerDone) == t;
    }
  }

  lemma KeptBySweeper(cfg: Config, s: State, step: Step, fd: nat)
    requires Enabled(cfg, s, step) && (step.Wake? || step.SweepCheck? || step.Tick?)
    ensures Places(Apply(cfg, s, step), fd) == Places(s, fd)
  {
    match step
    case Wake(now, sweep) =>
      CountSplit(s.pool.entries, |s.pool.entries| - Min(|s.pool.entries|, SweepBatch(cfg)), fd);
    case SweepCheck(dead) =>
      CountHead(s.sweeper.batch, fd);
      CountPush(s.sweeper.alive, s.sweeper.batch[0], fd);
    case Tick(rotate, _) =>
      CountRenew(cfg, s.pool, s.sweeper.alive, rotate, s.sweeper.at, fd);
      CountClosed(s.closed, Renew(cfg, s.pool, s.sweeper.alive, rotate, s.sweeper.at).1, fd);
  }

  lemma KeptByWorker(cfg: Config, s: State, step: Step, fd: nat)
    requires Enabled(cfg, s, step) && (step.Receive? || step.Open? || step.Succeed? || step.Fail?)
    ensures Places(Apply(cfg, s, step), fd) == Places(s, fd) + One(step.Open? && fd == s.nextFd)
  {
    match step
    case Receive(w) => CountWorkersUpdate(s.workers, w, Starting, fd);
    case Open(w) => CountWorkersUpdate(s.workers, w, Connecting(s.nextFd), fd);
    case Succeed(w, now) =>
      CountWorkersUpdate(s.workers, w, Idle, fd);
      var e := Success(cfg, s.pool, s.workers[w].fd, now).0.entries;
      if |s.pool.entries| < cfg.poolSize {
        CountPush(s.pool.entries, e[|e| - 1], fd);
      }
    case Fail(w, now) => CountWorkersUpdate(s.workers, w, Idle, fd);
  }

  /** No step loses, duplicates or invents a descriptor; only opening one adds one. */
  lemma PlacesConserved(cfg: Config, s: State, step: Step, fd: nat)
    requires Enabled(cfg, s, step)
    ensures Places(Apply(cfg, s, step), fd) == Places(s, fd) + One(step.Open? && fd == s.nextFd)
  {
    if step.TakerDone? {
      KeptByTakerDone(cfg, s, fd);
    } else if step.TakerPop? {
      KeptByTakerPop(cfg, s, step.now, fd);
    } else if step.TakerCheck? {
      KeptByTakerCheck(cfg, s, step.dead, fd);
    } else if step.Wake? || step.SweepCheck? || step.Tick? {
      KeptBySweeper(cfg, s, step, fd);
    } else if !step.Hangup? {
      KeptByWorker(cfg, s, step, fd);
    }
  }
}
