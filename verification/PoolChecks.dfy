/** What the liveness checks of the taker and of the sweep mean for what is handed out, over all runs. */
module PoolChecks {
  import opened Wrappers
  import opened Jitter
  import opened PoolModel
  import opened PoolProtocol
  import opened PoolSafety

  /** The state in which step `i` of a run is made. */
  function Before(cfg: Config, seed: Word, steps: seq<Step>, i: nat): Option<State>
    requires i <= |steps|
  {
    Run(cfg, seed, steps[..i])
  }

  /** Step `i` checked this very entry, found it alive, and it was within its time-to-live at instant `at`. */
  ghost predicate Passed(cfg: Config, seed: Word, steps: seq<Step>, i: nat, e: Entry, at: nat) {
    && i < |steps| && steps[i] == TakerCheck(false) && Before(cfg, seed, steps, i).Some?
    && var s := Before(cfg, seed, steps, i).value;
       && s.taker.Checking? && s.taker.rest != [] && s.taker.rest[0] == e && s.taker.at == at
       && SatSub(at, e.birth) <= e.ttl
  }

  lemma PassedLonger(cfg: Config, seed: Word, steps: seq<Step>, n: nat, i: nat, e: Entry, at: nat)
    requires n <= |steps| && Passed(cfg, seed, steps[..n], i, e, at)
    ensures Passed(cfg, seed, steps, i, e, at)
  {
    assert steps[..n][..i] == steps[..i];
  }

  /** What the taker holds as its result, and whatever was ever handed out, has passed a check of its own. */
  ghost predicate AllPassed(cfg: Config, seed: Word, steps: seq<Step>, s: State) {
    && (s.taker.Checking? && s.taker.result.Some? ==>
          exists i :: Passed(cfg, seed, steps, i, s.taker.result.value, s.taker.at))
    && (forall h :: h in s.handed ==> exists i :: Passed(cfg, seed, steps, i, h.entry, h.at))
  }

  lemma AllPassedLonger(cfg: Config, seed: Word, steps: seq<Step>, n: nat, s: State)
    requires n <= |steps| && AllPassed(cfg, seed, steps[..n], s)
    ensures AllPassed(cfg, seed, steps, s)
  {
    if s.taker.Checking? && s.taker.result.Some? {
      var i :| Passed(cfg, seed, steps[..n], i, s.taker.result.value, s.taker.at);
      PassedLonger(cfg, seed, steps, n, i, s.taker.result.value, s.taker.at);
    }
    forall h | h in s.handed
      ensures exists i :: Passed(cfg, seed, steps, i, h.entry, h.at)
    {
      var i :| Passed(cfg, seed, steps[..n], i, h.entry, h.at);
      PassedLonger(cfg, seed, steps, n, i, h.entry, h.at);
    }
  }

  /** A socket handed out was found alive by a check of its own, and was within its time-to-live then. */
  lemma {:induction false} HandedAlive(cfg: Config, seed: Word, steps: seq<Step>)
    requires Run(cfg, seed, steps).Some?
    ensures AllPassed(cfg, seed, steps, Run(cfg, seed, steps).value)
  {
    if steps != [] {
      var n := |steps| - 1;
      HandedAlive(cfg, seed, steps[..n]);
      var s := Run(cfg, seed, steps[..n]).value;
      AllPassedLonger(cfg, seed, steps, n, s);
      AllPassedStep(cfg, seed, steps, s);
    }
  }

  lemma AllPassedStep(cfg: Config, seed: Word, steps: seq<Step>, s: State)
    requires steps != [] && Before(cfg, seed, steps, |steps| - 1) == Some(s)
    requires Enabled(cfg, s, steps[|steps| - 1]) && AllPassed(cfg, seed, steps, s)
    ensures AllPassed(cfg, seed, steps, Apply(cfg, s, steps[|steps| - 1]))
  {
    var n := |steps| - 1;
    if steps[n].TakerCheck? && s.taker.result.None? {
      var e := s.taker.rest[0];
      if !steps[n].dead && Fresh(e, s.taker.at) {
        assert Passed(cfg, seed, steps, n, e, s.taker.at);
      }
    }
  }

  /** The step finds the descriptor dead: a check of the sweep, or of a taker that still looks for a socket. */
  predicate FindsDead(s: State, step: Step, fd: nat) {
    match step
    case SweepCheck(dead) => dead && s.sweeper.Sweeping? && s.sweeper.batch != [] && s.sweeper.batch[0].fd == fd
    case TakerCheck(dead) =>
      dead && s.taker.Checking? && s.taker.result.None? && s.taker.rest != [] && s.taker.rest[0].fd == fd
    case _ => false
  }

  lemma DeadClosed(cfg: Config, s: State, step: Step, fd: nat)
    requires Enabled(cfg, s, step) && FindsDead(s, step, fd)
    ensures Apply(cfg, s, step).closed[fd] == s.closed[fd] + 1 && Apply(cfg, s, step).handed == s.handed
  {
  }

  /** A descriptor that was found dead is closed, and is not handed to anybody, in any continuation of the run. */
  lemma DeadNeverHanded(cfg: Config, seed: Word, steps: seq<Step>, k: nat, fd: nat)
    requires cfg.Validated() && k < |steps| && Run(cfg, seed, steps).Some?
    requires Before(cfg, seed, steps, k).Some? && FindsDead(Before(cfg, seed, steps, k).value, steps[k], fd)
    ensures var t := Run(cfg, seed, steps).value;
            && t.closed[fd] == 1 && CountHanded(t.handed, fd) == 0
            && Count(t.pool.entries, fd) == 0
  {
    var s := Before(cfg, seed, steps, k).value;
    Continues(cfg, seed, steps, k + 1, fd);
    assert steps[..k + 1][..k] == steps[..k];
    assert steps[..k + 1][k] == steps[k];
    DeadClosed(cfg, s, steps[k], fd);
    FoundSomewhere(cfg, seed, steps[..k], steps[k], fd);
    OneOwner(cfg, seed, steps, fd);
    HandedWithSpent(cfg, seed, steps, k + 1, fd);
  }

  /** What is being checked has not been handed out or closed before. */
  lemma FoundSomewhere(cfg: Config, seed: Word, steps: seq<Step>, step: Step, fd: nat)
    requires cfg.Validated() && Run(cfg, seed, steps).Some?
    requires FindsDead(Run(cfg, seed, steps).value, step, fd)
    ensures var s := Run(cfg, seed, steps).value; Spent(s, fd) == 0 && CountHanded(s.handed, fd) == 0
  {
    var s := Run(cfg, seed, steps).value;
    RunSafe(cfg, seed, steps);
    assert Places(s, fd) == One(fd < s.nextFd);
    if step.SweepCheck? {
      CountHead(s.sweeper.batch, fd);
    } else {
      CountHead(s.taker.rest, fd);
    }
    assert CountHanded(s.handed, fd) <= Spent(s, fd);
  }

  /** Whenever something is handed out, that much more is spent. */
  lemma {:induction false} HandedWithSpent(cfg: Config, seed: Word, steps: seq<Step>, k: nat, fd: nat)
    requires k <= |steps| && Run(cfg, seed, steps).Some?
    ensures Run(cfg, seed, steps[..k]).Some?
    ensures var s, t := Run(cfg, seed, steps[..k]).value, Run(cfg, seed, steps).value;
            Spent(t, fd) - Spent(s, fd) >= CountHanded(t.handed, fd) - CountHanded(s.handed, fd)
    decreases |steps|
  {
    if k == |steps| {
      assert steps[..k] == steps;
    } else {
      var n := |steps| - 1;
      assert steps[..n][..k] == steps[..k];
      HandedWithSpent(cfg, seed, steps[..n], k, fd);
      SpentStep(cfg, Run(cfg, seed, steps[..n]).value, steps[n], fd);
    }
  }

  /** A sweep looks at a quarter of the pool, and at eight entries at least. */
  lemma SweepBatchMeans(cfg: Config, n: nat)
    ensures n <= SweepBatch(cfg) <==> n <= 8 || 4 * n <= cfg.poolSize
  {
  }
}
