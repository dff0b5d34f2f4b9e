/** Where refilling leads when nothing takes from the pool, and how far it can overshoot when something does. */
module PoolRefill {
  import opened Wrappers
  import opened Jitter
  import opened PoolModel
  import opened PoolProtocol
  import opened PoolSafety

  /** A run of steps from any state. */
  function Exec(cfg: Config, s: State, steps: seq<Step>): Option<State>
    decreases |steps|
  {
    if steps == [] then Some(s)
    else if Enabled(cfg, s, steps[0]) then Exec(cfg, Apply(cfg, s, steps[0]), steps[1..])
    else None
  }

  lemma {:induction false} ExecConcat(cfg: Config, s: State, a: seq<Step>, b: seq<Step>)
    requires Exec(cfg, s, a + b).Some?
    ensures Exec(cfg, s, a).Some? && Exec(cfg, Exec(cfg, s, a).value, b) == Exec(cfg, s, a + b)
    decreases |a|
  {
    if a == [] {
      assert a + b == b;
    } else {
      assert (a + b)[1..] == a[1..] + b;
      ExecConcat(cfg, Apply(cfg, s, a[0]), a[1..], b);
    }
  }

  /** Nobody is taking, sweeping or connecting, and refilling is not suspended. */
  ghost predicate Quiet(cfg: Config, s: State) {
    && Sized(cfg, s) && s.pool.pending == 0 && s.pool.pauseUntil == None
    && s.taker == Away && s.sweeper == Asleep
  }

  /** A worker gets on with a connect, and succeeds. */
  predicate Connects(step: Step) {
    step.Receive? || step.Open? || step.Succeed?
  }

  /** However the workers are scheduled, successful connects turn pending requests into entries one for one. */
  lemma {:induction false} ConnectPhase(cfg: Config, s: State, steps: seq<Step>)
    requires Sized(cfg, s) && s.pool.pauseUntil == None && |s.pool.entries| + s.pool.pending <= cfg.poolSize
    requires (forall i :: 0 <= i < |steps| ==> Connects(steps[i])) && Exec(cfg, s, steps).Some?
    ensures var t := Exec(cfg, s, steps).value;
            && Sized(cfg, t) && t.pool.pauseUntil == None && t.taker == s.taker && t.sweeper == s.sweeper
            && |t.pool.entries| + t.pool.pending == |s.pool.entries| + s.pool.pending
            && t.closed == s.closed   // no connect is refused
    decreases |steps|
  {
    if steps != [] {
      assert Connects(steps[0]);
      SizedStep(cfg, s, steps[0]);
      ConnectPhase(cfg, Apply(cfg, s, steps[0]), steps[1..]);
    }
  }

  function AllAlive(k: nat): seq<Step> {
    seq(k, _ => SweepCheck(false))
  }

  /** A sweep that finds nothing dead. */
  lemma {:induction false} SweepPhase(cfg: Config, s: State, k: nat)
    requires s.sweeper.Sweeping? && k == |s.sweeper.batch|
    ensures Exec(cfg, s, AllAlive(k)) ==
            Some(s.(sweeper := s.sweeper.(batch := [], alive := s.sweeper.alive + s.sweeper.batch)))
    decreases k
  {
    if k == 0 {
      assert s.sweeper.alive + s.sweeper.batch == s.sweeper.alive;
    } else {
      var t := Apply(cfg, s, SweepCheck(false));
      assert AllAlive(k)[1..] == AllAlive(k - 1);
      SweepPhase(cfg, t, k - 1);
      assert t.sweeper.alive + t.sweeper.batch == s.sweeper.alive + s.sweeper.batch;
    }
  }

  lemma {:induction false} PartitionFresh(es: seq<Entry>, now: nat)
    requires forall e :: e in es ==> Fresh(e, now)
    ensures Partition(es, now) == (es, [])
  {
    if es != [] {
      PartitionFresh(es[..|es| - 1], now);
      assert es == es[..|es| - 1] + [es[|es| - 1]];
    }
  }

  /** One tick of the maintainer at `now`, in which no entry is found dead or expired, and the connects it asks for. */
  function TickSteps(cfg: Config, entries: nat, now: nat, sweep: bool, rotate: bool): seq<Step> {
    [Wake(now, sweep)] + AllAlive(if sweep then Min(entries, SweepBatch(cfg)) else 0)
    + [PoolProtocol.Tick(rotate, cfg.refillBatch)]
  }

  ghost predicate Round(cfg: Config, s: State, now: nat, sweep: bool, rotate: bool, connects: seq<Step>, t: State) {
    && (forall e :: e in s.pool.entries ==> Fresh(e, now))
    && (forall i :: 0 <= i < |connects| ==> Connects(connects[i]))
    && Exec(cfg, s, TickSteps(cfg, |s.pool.entries|, now, sweep, rotate) + connects) == Some(t)
    && t.pool.pending == 0
  }

  /** The maintainer's sweep puts every live entry back where it was. */
  lemma SweepEffect(cfg: Config, s: State, now: nat, sweep: bool, k: nat)
    requires Quiet(cfg, s) && now >= s.clock
    requires k == if sweep then Min(|s.pool.entries|, SweepBatch(cfg)) else 0
    ensures Enabled(cfg, s, Wake(now, sweep)) && Exec(cfg, Apply(cfg, s, Wake(now, sweep)), AllAlive(k)).Some?
    ensures var b := Exec(cfg, Apply(cfg, s, Wake(now, sweep)), AllAlive(k)).value;
            && b.sweeper.Sweeping? && b.sweeper.batch == [] && b.sweeper.at == now
            && b.pool == s.pool.(entries := b.pool.entries) && b.pool.entries + b.sweeper.alive == s.pool.entries
            && b == s.(pool := b.pool, sweeper := b.sweeper, clock := now)
  {
    var keep := |s.pool.entries| - k;
    var a := Apply(cfg, s, Wake(now, sweep));
    assert s.pool.entries[..keep] + s.pool.entries[keep..] == s.pool.entries;
    assert s.pool.entries[..|s.pool.entries|] == s.pool.entries;
    SweepPhase(cfg, a, k);
    assert [] + a.sweeper.batch == a.sweeper.batch;
  }

  lemma RenewNothingLost(cfg: Config, p: Pool, alive: seq<Entry>, rotate: bool, now: nat)
    requires |p.entries| + |alive| <= cfg.poolSize && forall e :: e in p.entries + alive ==> Fresh(e, now)
    ensures Renew(cfg, p, alive, rotate, now) == (p.(entries := p.entries + alive), [])
  {
    assert Restore(cfg, p, alive) == (p.(entries := p.entries + alive), []) by {
      assert alive[..|alive|] == alive && alive[|alive|..] == [];
    }
    var none: seq<Entry> := [];
    assert none + none == none;
    PartitionFresh(p.entries + alive, now);
  }

  lemma TickEffect(cfg: Config, s: State, now: nat, sweep: bool, rotate: bool)
    requires cfg.Validated() && Quiet(cfg, s) && now >= s.clock
    requires forall e :: e in s.pool.entries ==> Fresh(e, now)
    ensures Exec(cfg, s, TickSteps(cfg, |s.pool.entries|, now, sweep, rotate)).Some?
    ensures var t := Exec(cfg, s, TickSteps(cfg, |s.pool.entries|, now, sweep, rotate)).value;
            && Sized(cfg, t) && t.pool.pauseUntil == None && t.taker == Away && t.sweeper == Asleep
            && |t.pool.entries| == |s.pool.entries| && t.closed == s.closed
            && t.pool.pending == Wanted(cfg, |s.pool.entries|, 0, false)
  {
    var k := if sweep then Min(|s.pool.entries|, SweepBatch(cfg)) else 0;
    var tick := PoolProtocol.Tick(rotate, cfg.refillBatch);
    SweepEffect(cfg, s, now, sweep, k);
    var b := Exec(cfg, Apply(cfg, s, Wake(now, sweep)), AllAlive(k)).value;
    TickNothingLost(cfg, b, rotate);
    SizedStep(cfg, b, tick);
    ExecSteps(cfg, s, Wake(now, sweep), AllAlive(k), tick);
  }

  lemma TickNothingLost(cfg: Config, b: State, rotate: bool)
    requires cfg.Validated() && b.sweeper.Sweeping? && b.sweeper.batch == []
    requires b.pool.pending == 0 && b.pool.pauseUntil == None && |b.pool.entries + b.sweeper.alive| <= cfg.poolSize
    requires forall e :: e in b.pool.entries + b.sweeper.alive ==> Fresh(e, b.sweeper.at)
    ensures var es := b.pool.entries + b.sweeper.alive;
            var n := Wanted(cfg, |es|, 0, false);
            Apply(cfg, b, PoolProtocol.Tick(rotate, cfg.refillBatch))
            == b.(pool := b.pool.(entries := es, pending := n), queue := b.queue + n, sweeper := Asleep)
  {
    RenewNothingLost(cfg, b.pool, b.sweeper.alive, rotate, b.sweeper.at);
    WantedBetween(cfg, |b.pool.entries + b.sweeper.alive|);
  }

  lemma ExecSteps(cfg: Config, s: State, first: Step, middle: seq<Step>, last: Step)
    requires Enabled(cfg, s, first) && Exec(cfg, Apply(cfg, s, first), middle).Some?
    requires Enabled(cfg, Exec(cfg, Apply(cfg, s, first), middle).value, last)
    ensures Exec(cfg, s, [first] + middle + [last])
            == Some(Apply(cfg, Exec(cfg, Apply(cfg, s, first), middle).value, last))
  {
    assert ([first] + middle + [last])[1..] == middle + [last];
    ExecLast(cfg, Apply(cfg, s, first), middle, last);
  }

  lemma {:induction false} ExecLast(cfg: Config, s: State, steps: seq<Step>, last: Step)
    requires Exec(cfg, s, steps).Some? && Enabled(cfg, Exec(cfg, s, steps).value, last)
    ensures Exec(cfg, s, steps + [last]) == Some(Apply(cfg, Exec(cfg, s, steps).value, last))
    decreases |steps|
  {
    if steps == [] {
      assert steps + [last] == [last];
      assert Exec(cfg, Apply(cfg, s, last), []) == Some(Apply(cfg, s, last));
    } else {
      assert (steps + [last])[1..] == steps[1..] + [last];
      ExecLast(cfg, Apply(cfg, s, steps[0]), steps[1..], last);
    }
  }

  /** A tick below the pool size asks for at least one connect and never for more than are missing. */
  lemma WantedBetween(cfg: Config, entries: nat)
    requires cfg.Validated() && entries <= cfg.poolSize
    ensures entries < cfg.poolSize ==> 1 <= Wanted(cfg, entries, 0, false) <= cfg.poolSize - entries
    ensures entries == cfg.poolSize ==> Wanted(cfg, entries, 0, false) == 0
    ensures Wanted(cfg, entries, 0, false) <= cfg.refillBatch
  {
  }

  lemma RoundEffect(cfg: Config, s: State, now: nat, sweep: bool, rotate: bool, connects: seq<Step>, t: State)
    requires cfg.Validated() && Quiet(cfg, s) && Round(cfg, s, now, sweep, rotate, connects, t)
    ensures Quiet(cfg, t) && t.closed == s.closed
    ensures |t.pool.entries| == |s.pool.entries| + Wanted(cfg, |s.pool.entries|, 0, false)
  {
    var ticks := TickSteps(cfg, |s.pool.entries|, now, sweep, rotate);
    ExecConcat(cfg, s, ticks, connects);
    TickEffect(cfg, s, now, sweep, rotate);
    WantedBetween(cfg, |s.pool.entries|);
    ConnectPhase(cfg, Exec(cfg, s, ticks).value, connects);
  }

  ghost predicate NextRound(cfg: Config, s: State, t: State) {
    exists now, sweep, rotate, connects :: Round(cfg, s, now, sweep, rotate, connects, t)
  }

  /** The states between successive rounds. */
  ghost predicate Rounds(cfg: Config, states: seq<State>) {
    forall i, j :: 0 <= i < |states| && j == i + 1 < |states| ==> NextRound(cfg, states[i], states[j])
  }

  /**
   Left alone, the pool is full after at most as many ticks as it has places, stays full, and no
   socket is ever opened in vain; every later tick asks for nothing.
   */
  lemma {:induction false} Converges(cfg: Config, states: seq<State>)
    requires cfg.Validated() && states != [] && Quiet(cfg, states[0]) && Rounds(cfg, states)
    ensures var s, t := states[0], states[|states| - 1];
            && Quiet(cfg, t) && t.closed == s.closed
            && |t.pool.entries| >= Min(cfg.poolSize, |s.pool.entries| + |states| - 1)
            && (|states| > cfg.poolSize ==>
                  |t.pool.entries| == cfg.poolSize && Wanted(cfg, |t.pool.entries|, 0, false) == 0)
    decreases |states|
  {
    var n := |states| - 1;
    if n > 0 {
      var s, t := states[n - 1], states[n];
      assert states[..n][n - 1] == s;
      Converges(cfg, states[..n]);
      assert NextRound(cfg, s, t);
      var now, sweep, rotate, connects :| Round(cfg, s, now, sweep, rotate, connects, t);
      RoundEffect(cfg, s, now, sweep, rotate, connects, t);
      WantedBetween(cfg, |s.pool.entries|);
    }
    WantedBetween(cfg, |states[n].pool.entries|);
  }

  // ---- Rounds exist, and the overshoot bound is reached ----

  /** The first worker serves `m` requests, one after the other. */
  function OneByOne(m: nat, now: nat): seq<Step> {
    if m == 0 then [] else [Receive(0), Open(0), Succeed(0, now)] + OneByOne(m - 1, now)
  }

  lemma {:induction false} OneByOneConnects(m: nat, now: nat)
    ensures forall i :: 0 <= i < |OneByOne(m, now)| ==> Connects(OneByOne(m, now)[i])
  {
    if m > 0 {
      OneByOneConnects(m - 1, now);
    }
  }

  lemma {:induction false} ServeAll(cfg: Config, s: State, now: nat)
    requires Sized(cfg, s) && cfg.refillBatch > 0 && s.workers[0].Idle? && s.queue == s.pool.pending && s.clock <= now
    ensures Exec(cfg, s, OneByOne(s.queue, now)).Some?
    ensures var t := Exec(cfg, s, OneByOne(s.queue, now)).value;
            t.pool.pending == 0 && (s.clock == now ==> t.clock == now)
    decreases s.queue
  {
    if s.queue > 0 {
      var steps := OneByOne(s.queue, now);
      var a := Apply(cfg, s, Receive(0));
      var b := Apply(cfg, a, Open(0));
      var c := Apply(cfg, b, Succeed(0, now));
      SizedStep(cfg, s, Receive(0));
      SizedStep(cfg, a, Open(0));
      SizedStep(cfg, b, Succeed(0, now));
      ServeAll(cfg, c, now);
      assert steps[1..][1..][1..] == OneByOne(s.queue - 1, now);
      assert Exec(cfg, s, steps) == Exec(cfg, a, steps[1..]) == Exec(cfg, b, steps[1..][1..]);
    }
  }

  lemma {:induction false} IdleIfNotBusy(ws: seq<Worker>, w: nat)
    requires Busy(ws) == 0 && w < |ws|
    ensures ws[w].Idle?
  {
    if w < |ws| - 1 {
      IdleIfNotBusy(ws[..|ws| - 1], w);
    }
  }

  lemma TickQueue(cfg: Config, s: State, now: nat)
    requires cfg.Validated() && Quiet(cfg, s) && now >= s.clock
    ensures var steps := [Wake(now, false)] + [PoolProtocol.Tick(false, cfg.refillBatch)];
            && TickSteps(cfg, |s.pool.entries|, now, false, false) == steps
            && Exec(cfg, s, steps).Some?
            && var t := Exec(cfg, s, steps).value;
               t.queue == t.pool.pending && t.workers == s.workers && t.clock == now
  {
    var steps := [Wake(now, false)] + [PoolProtocol.Tick(false, cfg.refillBatch)];
    var tick := PoolProtocol.Tick(false, cfg.refillBatch);
    assert TickSteps(cfg, |s.pool.entries|, now, false, false) == [Wake(now, false)] + [] + [tick] == steps;
    ExecSteps(cfg, s, Wake(now, false), [], tick);
  }

  /** From any quiet state whose entries are within their time there is a round. */
  lemma RoundExists(cfg: Config, s: State, now: nat) returns (connects: seq<Step>, t: State)
    requires cfg.Validated() && Quiet(cfg, s) && now >= s.clock
    requires forall e :: e in s.pool.entries ==> Fresh(e, now)
    ensures Round(cfg, s, now, false, false, connects, t) && t.clock == now
  {
    var ticks := TickSteps(cfg, |s.pool.entries|, now, false, false);
    TickQueue(cfg, s, now);
    TickEffect(cfg, s, now, false, false);
    var a := Exec(cfg, s, ticks).value;
    IdleIfNotBusy(s.workers, 0);
    ServeAll(cfg, a, now);
    connects := OneByOne(a.queue, now);
    OneByOneConnects(a.queue, now);
    t := Exec(cfg, a, connects).value;
    ExecJoin(cfg, s, ticks, connects);
  }

  lemma {:induction false} ExecJoin(cfg: Config, s: State, a: seq<Step>, b: seq<Step>)
    requires Exec(cfg, s, a).Some?
    ensures Exec(cfg, s, a + b) == Exec(cfg, Exec(cfg, s, a).value, b)
    decreases |a|
  {
    if a == [] {
      assert a + b == b;
    } else {
      assert (a + b)[1..] == a[1..] + b;
      ExecJoin(cfg, Apply(cfg, s, a[0]), a[1..], b);
    }
  }

  /** Runs from the start are executions of the initial state. */
  lemma {:induction false} RunIsExec(cfg: Config, seed: Word, steps: seq<Step>)
    requires Exec(cfg, Init(cfg, seed), steps).Some?
    ensures Run(cfg, seed, steps) == Exec(cfg, Init(cfg, seed), steps)
  {
    if steps != [] {
      var n := |steps| - 1;
      assert steps == steps[..n] + [steps[n]];
      ExecConcat(cfg, Init(cfg, seed), steps[..n], [steps[n]]);
      RunIsExec(cfg, seed, steps[..n]);
      var s := Exec(cfg, Init(cfg, seed), steps[..n]).value;
      assert Exec(cfg, s, [steps[n]]).Some? ==> Enabled(cfg, s, steps[n]);
    }
  }

  /** From the start there is a run to a full pool in which nothing is left to do. */
  lemma FillUp(cfg: Config, seed: Word) returns (steps: seq<Step>, s: State)
    requires cfg.Validated()
    ensures Exec(cfg, Init(cfg, seed), steps) == Some(s)
    ensures Quiet(cfg, s) && |s.pool.entries| == cfg.poolSize && s.clock == 0
  {
    steps, s := [], Init(cfg, seed);
    NobodyBusy(s.workers);
    while |s.pool.entries| < cfg.poolSize
      invariant Exec(cfg, Init(cfg, seed), steps) == Some(s) && Quiet(cfg, s) && s.clock == 0
      decreases cfg.poolSize - |s.pool.entries|
    {
      var connects, t := RoundExists(cfg, s, 0);
      RoundEffect(cfg, s, 0, false, false, connects, t);
      WantedBetween(cfg, |s.pool.entries|);
      var round := TickSteps(cfg, |s.pool.entries|, 0, false, false) + connects;
      ExecJoin(cfg, Init(cfg, seed), steps, round);
      steps, s := steps + round, t;
    }
  }

  /** A tick on a pool with something missing asks for at least one connect and never for more than are missing. */
  lemma TickAsks(cfg: Config, s: State) returns (a: State, b: State)
    requires cfg.Validated() && cfg.minSize == 0 && s.sweeper == Asleep && s.pool.pauseUntil == None
    requires |s.pool.entries| + s.pool.pending < cfg.poolSize
    ensures Enabled(cfg, s, Wake(s.clock, false)) && a == Apply(cfg, s, Wake(s.clock, false))
    ensures Enabled(cfg, a, PoolProtocol.Tick(false, cfg.refillBatch))
    ensures b == Apply(cfg, a, PoolProtocol.Tick(false, cfg.refillBatch))
    ensures s.pool.pending < b.pool.pending <= cfg.poolSize - |s.pool.entries| && b.pool.entries == s.pool.entries
    ensures b.taker == s.taker && b.sweeper == Asleep && b.pool.pauseUntil == None
  {
    a := Apply(cfg, s, Wake(s.clock, false));
    assert Renew(cfg, a.pool, [], false, s.clock).0.entries == a.pool.entries;
    b := Apply(cfg, a, PoolProtocol.Tick(false, cfg.refillBatch));
  }

  /** With the workers at a standstill, ticks ask until nothing is missing. */
  lemma AskForAll(cfg: Config, s: State) returns (steps: seq<Step>, t: State)
    requires cfg.Validated() && cfg.minSize == 0 && s.sweeper == Asleep && s.pool.pauseUntil == None
    requires |s.pool.entries| + s.pool.pending <= cfg.poolSize
    ensures Exec(cfg, s, steps) == Some(t)
    ensures |t.pool.entries| + t.pool.pending == cfg.poolSize && t.taker == s.taker && t.sweeper == Asleep
  {
    steps, t := [], s;
    while |t.pool.entries| + t.pool.pending < cfg.poolSize
      invariant Exec(cfg, s, steps) == Some(t)
      invariant t.sweeper == Asleep && t.pool.pauseUntil == None && t.taker == s.taker
      invariant |t.pool.entries| + t.pool.pending <= cfg.poolSize
      decreases cfg.poolSize - |t.pool.entries| - t.pool.pending
    {
      var a, b := TickAsks(cfg, t);
      ExecLast(cfg, s, steps, Wake(t.clock, false));
      ExecLast(cfg, s, steps + [Wake(t.clock, false)], PoolProtocol.Tick(false, cfg.refillBatch));
      steps, t := steps + [Wake(t.clock, false)] + [PoolProtocol.Tick(false, cfg.refillBatch)], b;
    }
  }

  /**
   Whatever the configuration, some run reaches the bound on the overshoot: on a full pool the taker
   pops a batch, the maintainer replaces all of it, and the taker has yet to give back what it will not use.
   */
  lemma OvershootTight(cfg: Config, seed: Word) returns (steps: seq<Step>)
    requires cfg.Validated() && cfg.minSize == 0
    ensures Run(cfg, seed, steps).Some? && Total(Run(cfg, seed, steps).value) == cfg.poolSize + Slack(cfg)
  {
    var init := Init(cfg, seed);
    if cfg.poolSize == 0 {
      NobodyBusy(init.workers);
      steps := [];
    } else {
      var fill, full := FillUp(cfg, seed);
      var pop := TakerPop(full.clock);
      ExecLast(cfg, init, fill, pop);
      var popped := Apply(cfg, full, pop);
      var ask, last := AskForAll(cfg, popped);
      ExecJoin(cfg, init, fill + [pop], ask);
      steps := fill + [pop] + ask;
      RunIsExec(cfg, seed, steps);
    }
  }
}
