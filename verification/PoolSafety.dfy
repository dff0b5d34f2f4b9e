/** What every interleaving of taker, maintainer and workers keeps. */
module PoolSafety {
  import opened Wrappers
  import opened Jitter
  import opened PoolModel
  import opened PoolProtocol

  /** How many workers are inside `refill_one`. */
  function Busy(ws: seq<Worker>): nat {
    if ws == [] then 0 else Busy(ws[..|ws| - 1]) + One(!ws[|ws| - 1].Idle?)
  }

  lemma {:induction false} BusyUpdate(ws: seq<Worker>, w: nat, v: Worker)
    requires w < |ws|
    ensures Busy(ws[w := v]) + One(!ws[w].Idle?) == Busy(ws) + One(!v.Idle?)
  {
    var n := |ws| - 1;
    if w == n {
      assert ws[w := v][..n] == ws[..n];
    } else {
      assert ws[w := v][..n] == ws[..n][w := v];
      BusyUpdate(ws[..n], w, v);
    }
  }

  lemma {:induction false} NobodyBusy(ws: seq<Worker>)
    requires forall w :: 0 <= w < |ws| ==> ws[w].Idle?
    ensures Busy(ws) == 0
    ensures forall fd: nat :: CountWorkers(ws, fd) == 0
  {
    if ws != [] {
      NobodyBusy(ws[..|ws| - 1]);
    }
  }

  /** The pool is never over its size, and `pending` counts the requests that are queued or being served. */
  ghost predicate Sized(cfg: Config, s: State) {
    && |s.pool.entries| <= cfg.poolSize
    && |s.workers| == cfg.refillBatch
    && s.pool.pending == s.queue + Busy(s.workers)
  }

  lemma RenewSized(cfg: Config, p: Pool, alive: seq<Entry>, rotate: bool, now: nat)
    ensures var n := |Renew(cfg, p, alive, rotate, now).0.entries|;
            n <= |p.entries| + |alive| && (|p.entries| <= cfg.poolSize ==> n <= cfg.poolSize)
    ensures Renew(cfg, p, alive, rotate, now).0.pending == p.pending
  {
  }

  lemma SizedStep(cfg: Config, s: State, step: Step)
    requires Enabled(cfg, s, step) && Sized(cfg, s)
    ensures Sized(cfg, Apply(cfg, s, step))
    // the saturating subtraction of connect_success and connect_fail never saturates
    ensures step.Succeed? || step.Fail? ==> s.pool.pending > 0
  {
    match step
    case Tick(rotate, accepts) => RenewSized(cfg, s.pool, s.sweeper.alive, rotate, s.sweeper.at);
    case Receive(w) => BusyUpdate(s.workers, w, Starting);
    case Open(w) => BusyUpdate(s.workers, w, Connecting(s.nextFd));
    case Succeed(w, now) => BusyUpdate(s.workers, w, Idle);
    case Fail(w, now) => BusyUpdate(s.workers, w, Idle);
    case _ =>
  }

  // ---- The overshoot ----

  /** At most how many entries the taker may still put back. */
  function Returnable(t: Taker): nat {
    if t.Away? then 0
    else if t.result.Some? then |t.rest| + |t.unused|
    else SatSub(|t.rest|, 1)
  }

  function Held(m: Sweeper): nat {
    if m.Asleep? then 0 else |m.batch| + |m.alive|
  }

  /** Everything that is in the pool or may yet come into it without another refill. */
  function Total(s: State): nat {
    |s.pool.entries| + Held(s.sweeper) + s.pool.pending + Returnable(s.taker)
  }

  /** A taker returns at most one entry fewer than it popped, and it pops at most a batch and at most the pool. */
  function Slack(cfg: Config): nat {
    SatSub(Min(cfg.poolSize, BATCH), 1)
  }

  ghost predicate Shaped(cfg: Config, t: Taker) {
    t.Checking? ==>
      && (t.result.None? ==> t.unused == [])
      && |t.rest| + |t.unused| + One(t.result.Some?) <= Min(cfg.poolSize, BATCH)
  }

  lemma ShapedStep(cfg: Config, s: State, step: Step)
    requires Enabled(cfg, s, step) && Shaped(cfg, s.taker) && |s.pool.entries| <= cfg.poolSize
    ensures Shaped(cfg, Apply(cfg, s, step).taker)
  {
  }

  /** A refill never lifts entries and pending requests together above the pool size. */
  lemma RefillBounded(cfg: Config, entries: nat, pending: nat, paused: bool)
    requires cfg.minSize == 0
    ensures var n := entries + pending + Wanted(cfg, entries, pending, paused);
            n <= cfg.poolSize || n == entries + pending
  {
  }

  lemma TotalByTick(cfg: Config, s: State, rotate: bool, accepts: nat)
    requires Enabled(cfg, s, Tick(rotate, accepts)) && Shaped(cfg, s.taker) && cfg.minSize == 0
    requires Total(s) <= cfg.poolSize + Slack(cfg)
    ensures Total(Apply(cfg, s, Tick(rotate, accepts))) <= cfg.poolSize + Slack(cfg)
  {
    RenewSized(cfg, s.pool, s.sweeper.alive, rotate, s.sweeper.at);
    var q := Renew(cfg, s.pool, s.sweeper.alive, rotate, s.sweeper.at).0;
    RefillBounded(cfg, |q.entries|, q.pending, Paused(q, s.sweeper.at));
    assert Returnable(s.taker) <= Slack(cfg);
  }

  lemma TotalByTaker(cfg: Config, s: State, step: Step)
    requires Enabled(cfg, s, step) && Shaped(cfg, s.taker)
    requires step.TakerPop? || step.TakerCheck? || step.TakerDone?
    ensures Total(Apply(cfg, s, step)) <= Total(s)
  {
  }

  lemma TotalStep(cfg: Config, s: State, step: Step)
    requires Enabled(cfg, s, step) && Sized(cfg, s) && Shaped(cfg, s.taker) && cfg.minSize == 0
    requires Total(s) <= cfg.poolSize + Slack(cfg)
    ensures Total(Apply(cfg, s, step)) <= cfg.poolSize + Slack(cfg)
  {
    if step.Tick? {
      TotalByTick(cfg, s, step.rotate, step.accepts);
    } else if step.TakerPop? || step.TakerCheck? || step.TakerDone? {
      TotalByTaker(cfg, s, step);
    } else {
      SizedStep(cfg, s, step);
    }
  }

  // ---- Ages ----

  ghost predicate Bounded(cfg: Config, es: seq<Entry>) {
    forall e :: e in es ==> TtlMin(cfg.ttlMs, cfg.jitterPct) <= e.ttl <= TtlMax(cfg.ttlMs, cfg.jitterPct)
  }

  /** Times-to-live are within the configured spread, and a socket handed out was within its own. */
  ghost predicate Young(cfg: Config, s: State) {
    && Bounded(cfg, s.pool.entries)
    && (s.taker.Checking? ==>
          && Bounded(cfg, s.taker.rest) && Bounded(cfg, s.taker.unused)
          && (s.taker.result.Some? ==> Bounded(cfg, [s.taker.result.value]) && Fresh(s.taker.result.value, s.taker.at)))
    && (s.sweeper.Sweeping? ==> Bounded(cfg, s.sweeper.batch) && Bounded(cfg, s.sweeper.alive))
    && (forall h :: h in s.handed ==> SatSub(h.at, h.entry.birth) <= TtlMax(cfg.ttlMs, cfg.jitterPct))
  }

  lemma {:induction false} PartitionSubset(es: seq<Entry>, now: nat)
    ensures forall e :: e in Partition(es, now).0 ==> e in es && Fresh(e, now)
  {
    if es != [] {
      var n := |es| - 1;
      PartitionSubset(es[..n], now);
      assert forall e :: e in es[..n] ==> e in es;
    }
  }

  lemma YoungTaker(cfg: Config, s: State, step: Step)
    requires Enabled(cfg, s, step) && Young(cfg, s) && (step.TakerPop? || step.TakerCheck? || step.TakerDone?)
    ensures Young(cfg, Apply(cfg, s, step))
  {
    if step.TakerDone? {
      var fit := Min(|s.taker.unused|, SatSub(cfg.poolSize, |s.pool.entries|));
      assert forall e :: e in s.taker.unused[..fit] ==> e in s.taker.unused;
      if s.taker.result.Some? {
        assert s.taker.result.value in [s.taker.result.value];
      }
    } else if step.TakerCheck? {
      assert s.taker.rest == [s.taker.rest[0]] + s.taker.rest[1..];
    } else {
      var keep := |s.pool.entries| - Min(|s.pool.entries|, BATCH);
      assert s.pool.entries == s.pool.entries[..keep] + s.pool.entries[keep..];
    }
  }

  lemma YoungSweeper(cfg: Config, s: State, step: Step)
    requires Enabled(cfg, s, step) && Young(cfg, s) && (step.Wake? || step.SweepCheck? || step.Tick?)
    ensures Young(cfg, Apply(cfg, s, step))
  {
    match step
    case Wake(now, sweep) =>
      var keep := |s.pool.entries| - Min(|s.pool.entries|, SweepBatch(cfg));
      assert s.pool.entries == s.pool.entries[..keep] + s.pool.entries[keep..];
    case SweepCheck(_) => assert s.sweeper.batch == [s.sweeper.batch[0]] + s.sweeper.batch[1..];
    case Tick(rotate, _) =>
      var fit := Min(|s.sweeper.alive|, SatSub(cfg.poolSize, |s.pool.entries|));
      assert forall e :: e in s.sweeper.alive[..fit] ==> e in s.sweeper.alive;
      PartitionSubset(Restore(cfg, s.pool, s.sweeper.alive).0.entries, s.sweeper.at);
  }

  lemma YoungPut(cfg: Config, p: Pool, fd: nat, now: nat)
    requires cfg.Validated() && cfg.NoWrap() && Bounded(cfg, p.entries)
    ensures Bounded(cfg, Put(cfg, p, fd, now).0.entries)
  {
    TtlWithin(cfg.ttlMs, cfg.jitterPct, Value(NextRng(p.rng)));
  }

  lemma YoungStep(cfg: Config, s: State, step: Step)
    requires cfg.Validated() && cfg.NoWrap() && Enabled(cfg, s, step) && Young(cfg, s)
    ensures Young(cfg, Apply(cfg, s, step))
  {
    if step.TakerPop? || step.TakerCheck? || step.TakerDone? {
      YoungTaker(cfg, s, step);
    } else if step.Wake? || step.SweepCheck? || step.Tick? {
      YoungSweeper(cfg, s, step);
    } else if step.Succeed? {
      YoungPut(cfg, s.pool, s.workers[step.w].fd, step.now);
    }
  }

  // ---- Handing out and closing are final ----

  function CountHanded(hs: seq<Handout>, fd: nat): nat {
    if hs == [] then 0 else CountHanded(hs[..|hs| - 1], fd) + One(hs[|hs| - 1].entry.fd == fd)
  }

  lemma HandedMore(hs: seq<Handout>, h: Handout, fd: nat)
    ensures CountHanded(hs + [h], fd) == CountHanded(hs, fd) + One(h.entry.fd == fd)
  {
    assert (hs + [h])[..|hs|] == hs;
  }

  /** Descriptors that have left the pool for good. */
  function Spent(s: State, fd: nat): nat {
    s.clients[fd] + s.closed[fd]
  }

  lemma SpentStep(cfg: Config, s: State, step: Step, fd: nat)
    requires Enabled(cfg, s, step)
    ensures var t := Apply(cfg, s, step);
            && Spent(t, fd) >= Spent(s, fd) + CountHanded(t.handed, fd) - CountHanded(s.handed, fd)
            && s.closed[fd] <= t.closed[fd] && s.handed <= t.handed
            && CountHanded(s.handed, fd) <= CountHanded(t.handed, fd)
  {
    if step.TakerDone? {
      SpentByTaker(cfg, s, fd);
    } else if step.Tick? {
      CountClosed(s.closed, Renew(cfg, s.pool, s.sweeper.alive, step.rotate, s.sweeper.at).1, fd);
    } else {
      SpentByOthers(cfg, s, step, fd);
    }
  }

  lemma SpentByOthers(cfg: Config, s: State, step: Step, fd: nat)
    requires Enabled(cfg, s, step) && !step.TakerDone? && !step.Tick?
    ensures var t := Apply(cfg, s, step);
            t.handed == s.handed && Spent(s, fd) <= Spent(t, fd) && s.closed[fd] <= t.closed[fd]
  {
  }

  lemma SpentByTaker(cfg: Config, s: State, fd: nat)
    requires Enabled(cfg, s, TakerDone)
    ensures var t := Apply(cfg, s, TakerDone);
            && s.closed[fd] <= t.closed[fd] && s.handed <= t.handed
            && t.clients[fd] - s.clients[fd] == CountHanded(t.handed, fd) - CountHanded(s.handed, fd) >= 0
  {
    CountClosed(s.closed, Restore(cfg, s.pool, s.taker.unused).1, fd);
    if s.taker.result.Some? {
      HandedMore(s.handed, Handout(s.taker.result.value, s.taker.at), fd);
    }
  }

  // ---- All runs ----

  /** Each descriptor opened so far is in exactly one place, and no other is anywhere. */
  ghost predicate Linear(s: State) {
    && (forall fd: nat :: Places(s, fd) == One(fd < s.nextFd))
    && (forall fd: nat :: CountHanded(s.handed, fd) <= Spent(s, fd))
  }

  lemma LinearStep(cfg: Config, s: State, step: Step)
    requires Enabled(cfg, s, step) && Linear(s)
    ensures Linear(Apply(cfg, s, step))
  {
    var t := Apply(cfg, s, step);
    forall fd: nat
      ensures Places(t, fd) == One(fd < t.nextFd)
    {
      PlacesConserved(cfg, s, step, fd);
    }
    forall fd: nat
      ensures CountHanded(t.handed, fd) <= Spent(t, fd)
    {
      SpentStep(cfg, s, step, fd);
    }
  }

  ghost predicate Safe(cfg: Config, s: State) {
    && Sized(cfg, s) && Shaped(cfg, s.taker) && Linear(s)
    && (cfg.minSize == 0 ==> Total(s) <= cfg.poolSize + Slack(cfg))
    && (cfg.NoWrap() ==> Young(cfg, s))
  }

  /** Every reachable state is safe. */
  lemma {:induction false} RunSafe(cfg: Config, seed: Word, steps: seq<Step>)
    requires cfg.Validated() && Run(cfg, seed, steps).Some?
    ensures Safe(cfg, Run(cfg, seed, steps).value)
  {
    if steps == [] {
      NobodyBusy(Init(cfg, seed).workers);
    } else {
      var n := |steps| - 1;
      RunSafe(cfg, seed, steps[..n]);
      var s := Run(cfg, seed, steps[..n]).value;
      SizedStep(cfg, s, steps[n]);
      ShapedStep(cfg, s, steps[n]);
      LinearStep(cfg, s, steps[n]);
      if cfg.minSize == 0 {
        TotalStep(cfg, s, steps[n]);
      }
      if cfg.NoWrap() {
        YoungStep(cfg, s, steps[n]);
      }
    }
  }

  /**
   In every reachable state each opened descriptor is in exactly one place, was handed to at most one
   client, and no fuller description of the places is possible: nothing else is anywhere.
   */
  lemma OneOwner(cfg: Config, seed: Word, steps: seq<Step>, fd: nat)
    requires cfg.Validated() && Run(cfg, seed, steps).Some?
    ensures var s := Run(cfg, seed, steps).value;
            && Places(s, fd) == One(fd < s.nextFd)
            && CountHanded(s.handed, fd) <= 1
            && |s.pool.entries| <= cfg.poolSize
            && s.pool.pending == s.queue + Busy(s.workers)
  {
    RunSafe(cfg, seed, steps);
  }

  /** A run can only be the continuation of its beginnings. */
  lemma {:induction false} Continues(cfg: Config, seed: Word, steps: seq<Step>, k: nat, fd: nat)
    requires k <= |steps| && Run(cfg, seed, steps).Some?
    ensures Run(cfg, seed, steps[..k]).Some?
    ensures var s, t := Run(cfg, seed, steps[..k]).value, Run(cfg, seed, steps).value;
            Spent(s, fd) <= Spent(t, fd) && s.closed[fd] <= t.closed[fd] && s.handed <= t.handed
    decreases |steps|
  {
    if k == |steps| {
      assert steps[..k] == steps;
    } else {
      var n := |steps| - 1;
      assert steps[..n][..k] == steps[..k];
      Continues(cfg, seed, steps[..n], k, fd);
      SpentStep(cfg, Run(cfg, seed, steps[..n]).value, steps[n], fd);
    }
  }

  /** A descriptor closed or handed out never comes back to the pool, a worker, the sweep or the taker. */
  lemma NeverReturns(cfg: Config, seed: Word, steps: seq<Step>, k: nat, fd: nat)
    requires cfg.Validated() && k <= |steps| && Run(cfg, seed, steps).Some?
    ensures Run(cfg, seed, steps[..k]).Some?
    ensures Spent(Run(cfg, seed, steps[..k]).value, fd) > 0 ==>
              var t := Run(cfg, seed, steps).value;
              && Spent(t, fd) == 1
              && Count(t.pool.entries, fd) == CountWorkers(t.workers, fd) == 0
              && CountTaker(t.taker, fd) == CountSweeper(t.sweeper, fd) == 0
  {
    Continues(cfg, seed, steps, k, fd);
    OneOwner(cfg, seed, steps, fd);
  }

  /** Whatever was handed out was, when it was checked, no older than the configured spread allows. */
  lemma HandedYoung(cfg: Config, seed: Word, steps: seq<Step>, h: Handout)
    requires cfg.Validated() && cfg.NoWrap() && Run(cfg, seed, steps).Some?
    requires h in Run(cfg, seed, steps).value.handed
    ensures SatSub(h.at, h.entry.birth) <= TtlMax(cfg.ttlMs, cfg.jitterPct)
  {
    RunSafe(cfg, seed, steps);
  }

  // ---- Without the guard on pool_min_size there is no bound ----

  /** Ticks that find the pool empty and no worker running. */
  function EmptyTicks(n: nat): seq<Step> {
    if n == 0 then [] else EmptyTicks(n - 1) + [Wake(0, false)] + [PoolProtocol.Tick(false, 256)]
  }

  lemma RunOneMore(cfg: Config, seed: Word, steps: seq<Step>, step: Step)
    requires Run(cfg, seed, steps).Some?
    ensures var s := Run(cfg, seed, steps).value;
            Run(cfg, seed, steps + [step]) == if Enabled(cfg, s, step) then Some(Apply(cfg, s, step)) else None
  {
    assert (steps + [step])[..|steps|] == steps;
  }

  ghost predicate Empty(s: State) {
    s.pool.entries == [] && s.pool.pauseUntil == None && s.sweeper == Asleep && s.clock == 0
  }

  /** Below the minimum every tick asks again, whatever is already pending. */
  lemma EmptyTick(cfg: Config, s: State) returns (a: State, b: State)
    requires cfg.Validated() && cfg.minSize > 0 && Empty(s)
    ensures Enabled(cfg, s, Wake(0, false)) && a == Apply(cfg, s, Wake(0, false))
    ensures Enabled(cfg, a, PoolProtocol.Tick(false, 256)) && b == Apply(cfg, a, PoolProtocol.Tick(false, 256))
    ensures Empty(b) && b.pool.pending > s.pool.pending
  {
    a := Apply(cfg, s, Wake(0, false));
    assert Renew(cfg, a.pool, [], false, 0).0 == a.pool;
    b := Apply(cfg, a, PoolProtocol.Tick(false, 256));
  }

  lemma {:induction false} EmptyTicksPile(cfg: Config, seed: Word, n: nat)
    requires cfg.Validated() && cfg.minSize > 0
    ensures Run(cfg, seed, EmptyTicks(n)).Some?
    ensures Empty(Run(cfg, seed, EmptyTicks(n)).value) && Run(cfg, seed, EmptyTicks(n)).value.pool.pending >= n
  {
    if n > 0 {
      EmptyTicksPile(cfg, seed, n - 1);
      var steps := EmptyTicks(n - 1);
      var a, b := EmptyTick(cfg, Run(cfg, seed, steps).value);
      RunOneMore(cfg, seed, steps, Wake(0, false));
      RunOneMore(cfg, seed, steps + [Wake(0, false)], PoolProtocol.Tick(false, 256));
    }
  }

  /**
   The overshoot is bounded over all runs exactly when no minimum size is configured.  The bound is
   reached, see `OvershootTight`.
   */
  lemma OvershootBoundedIff(cfg: Config, seed: Word)
    requires cfg.Validated()
    ensures cfg.minSize == 0 <==>
            forall steps {:trigger Run(cfg, seed, steps)} :: Run(cfg, seed, steps).Some? ==>
              Total(Run(cfg, seed, steps).value) <= cfg.poolSize + Slack(cfg)
  {
    if cfg.minSize == 0 {
      forall steps | Run(cfg, seed, steps).Some?
        ensures Total(Run(cfg, seed, steps).value) <= cfg.poolSize + Slack(cfg)
      {
        RunSafe(cfg, seed, steps);
      }
    } else {
      EmptyTicksPile(cfg, seed, cfg.poolSize + BATCH);
    }
  }
}
