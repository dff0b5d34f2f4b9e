/**
 The protocol against the calls it is made of: a taker that nobody disturbs does, step by step, what
 `take_live_unlocked` does in one go, and so does the sweeper.
 */
module PoolAlone {
  import opened Wrappers
  import opened PoolModel
  import opened PoolProtocol
  import opened PoolRefill
  import opened Pools

  function Checks(batch: seq<Entry>, dead: nat -> bool): seq<Step> {
    if batch == [] then [] else [TakerCheck(dead(batch[0].fd))] + Checks(batch[1..], dead)
  }

  /** The order in which descriptors are closed does not matter. */
  lemma {:induction false} CloseFirst(closed: multiset<nat>, es: seq<Entry>)
    requires es != []
    ensures Close(closed + multiset{es[0].fd}, es[1..]) == Close(closed, es)
  {
    var n := |es| - 1;
    if n > 0 {
      assert es[1..][..n - 1] == es[..n][1..];
      CloseFirst(closed, es[..n]);
    }
  }

  lemma {:induction false} CloseBoth(closed: multiset<nat>, a: seq<Entry>, b: seq<Entry>)
    ensures Close(Close(closed, a), b) == Close(closed, a + b)
  {
    if b == [] {
      assert a + b == a;
    } else {
      var n := |b| - 1;
      assert (a + b)[..|a| + n] == a + b[..n];
      CloseBoth(closed, a, b[..n]);
    }
  }

  function Fds(es: seq<Entry>): multiset<nat> {
    if es == [] then multiset{} else Fds(es[..|es| - 1]) + multiset{es[|es| - 1].fd}
  }

  lemma {:induction false} CloseAdds(closed: multiset<nat>, es: seq<Entry>)
    ensures Close(closed, es) == closed + Fds(es)
  {
    if es != [] {
      CloseAdds(closed, es[..|es| - 1]);
    }
  }

  lemma CloseSwap(closed: multiset<nat>, a: seq<Entry>, b: seq<Entry>)
    ensures Close(closed, a + b) == Close(closed, b + a)
  {
    CloseBoth(closed, a, b);
    CloseBoth(closed, b, a);
    CloseAdds(closed, a);
    CloseAdds(closed, b);
    CloseAdds(closed + Fds(a), b);
    CloseAdds(closed + Fds(b), a);
  }

  /** With a socket found, the rest of the batch is spared. */
  lemma {:induction false} ChecksSpare(cfg: Config, s: State, dead: nat -> bool)
    requires s.taker.Checking? && s.taker.result.Some?
    ensures Exec(cfg, s, Checks(s.taker.rest, dead))
            == Some(s.(taker := s.taker.(rest := [], unused := s.taker.unused + s.taker.rest)))
    decreases |s.taker.rest|
  {
    var rest := s.taker.rest;
    if rest == [] {
      assert s.taker.unused + rest == s.taker.unused;
    } else {
      var step := TakerCheck(dead(rest[0].fd));
      var t := Apply(cfg, s, step);
      ChecksSpare(cfg, t, dead);
      assert t.taker.unused + t.taker.rest == s.taker.unused + rest;
      assert Checks(rest, dead)[1..] == Checks(rest[1..], dead);
    }
  }

  /** The state once the whole batch has been checked: everything up to the first usable entry is closed. */
  function Found(s: State, dead: nat -> bool): State
    requires s.taker.Checking?
  {
    var rest := s.taker.rest;
    var i := FirstUsable(rest, Usable(dead, s.taker.at));
    s.(taker := if i < |rest| then Checking([], rest[i + 1..], Some(rest[i]), s.taker.at)
                else Checking([], [], None, s.taker.at),
       closed := Close(s.closed, rest[..i]))
  }

  lemma FoundFirst(s: State, dead: nat -> bool)
    requires s.taker.Checking? && s.taker.rest != [] && Usable(dead, s.taker.at)(s.taker.rest[0])
    ensures Found(s, dead) == s.(taker := Checking([], s.taker.rest[1..], Some(s.taker.rest[0]), s.taker.at))
  {
    assert s.taker.rest[..0] == [];
  }

  lemma FoundLater(s: State, dead: nat -> bool)
    requires s.taker.Checking? && s.taker.rest != [] && !Usable(dead, s.taker.at)(s.taker.rest[0])
    ensures var rest := s.taker.rest;
            Found(s, dead) == Found(s.(taker := Checking(rest[1..], [], None, s.taker.at),
                                       closed := s.closed + multiset{rest[0].fd}), dead)
  {
    var rest := s.taker.rest;
    var i := FirstUsable(rest, Usable(dead, s.taker.at));
    assert rest[1..][..i - 1] == rest[..i][1..];
    assert i < |rest| ==> rest[1..][i..] == rest[i + 1..];
    CloseFirst(s.closed, rest[..i]);
  }

  lemma {:induction false} ChecksFind(cfg: Config, s: State, dead: nat -> bool)
    requires s.taker.Checking? && s.taker.result.None? && s.taker.unused == []
    ensures Exec(cfg, s, Checks(s.taker.rest, dead)) == Some(Found(s, dead))
    decreases |s.taker.rest|
  {
    var rest := s.taker.rest;
    if rest != [] {
      var t := Apply(cfg, s, TakerCheck(dead(rest[0].fd)));
      assert Checks(rest, dead)[1..] == Checks(rest[1..], dead);
      if Usable(dead, s.taker.at)(rest[0]) {
        FoundFirst(s, dead);
        ChecksSpare(cfg, t, dead);
        assert [] + rest[1..] == rest[1..];
      } else {
        FoundLater(s, dead);
        ChecksFind(cfg, t, dead);
      }
    }
  }

  /** The spared entries go back, and the socket found goes to its client. */
  lemma DoneAlone(cfg: Config, s: State)
    requires Enabled(cfg, s, TakerDone) && |s.pool.entries| + |s.taker.unused| <= cfg.poolSize
    ensures var back := s.(pool := s.pool.(entries := s.pool.entries + s.taker.unused), taker := Away);
            Apply(cfg, s, TakerDone) ==
            match s.taker.result
            case None => back
            case Some(e) =>
              back.(clients := s.clients + multiset{e.fd}, handed := s.handed + [Handout(e, s.taker.at)])
  {
    var unused := s.taker.unused;
    assert unused[..|unused|] == unused && unused[|unused|..] == [];
  }

  /** What one round of the loop leaves behind. */
  function AfterRound(s: State, now: nat, dead: nat -> bool): State {
    var es := s.pool.entries;
    var lo := |es| - Min(|es|, BATCH);
    var batch := es[lo..];
    var i := FirstUsable(batch, Usable(dead, now));
    if i < |batch| then
      s.(pool := s.pool.(entries := es[..lo] + batch[i + 1..]), clock := now,
         closed := Close(s.closed, batch[..i]), clients := s.clients + multiset{batch[i].fd},
         handed := s.handed + [Handout(batch[i], now)])
    else
      s.(pool := s.pool.(entries := es[..lo]), clock := now, closed := Close(s.closed, batch))
  }

  /** The state with the batch checked and the spared entries still in hand. */
  function Checked(s: State, now: nat, dead: nat -> bool): State {
    var es := s.pool.entries;
    var lo := |es| - Min(|es|, BATCH);
    var batch := es[lo..];
    var i := FirstUsable(batch, Usable(dead, now));
    s.(pool := s.pool.(entries := es[..lo]), clock := now, closed := Close(s.closed, batch[..i]),
       taker := if i < |batch| then Checking([], batch[i + 1..], Some(batch[i]), now) else Checking([], [], None, now))
  }

  lemma CheckedDone(cfg: Config, s: State, now: nat, dead: nat -> bool)
    requires s.taker == Away && |s.pool.entries| <= cfg.poolSize
    ensures Apply(cfg, Checked(s, now, dead), TakerDone) == AfterRound(s, now, dead)
  {
    var es := s.pool.entries;
    var lo := |es| - Min(|es|, BATCH);
    var batch := es[lo..];
    DoneAlone(cfg, Checked(s, now, dead));
    assert es[..lo] + [] == es[..lo] && batch[..|batch|] == batch;
  }

  /** One round of the loop: pop a batch, check it, give the spared ones back. */
  lemma RoundAlone(cfg: Config, s: State, now: nat, dead: nat -> bool) returns (steps: seq<Step>)
    requires s.taker == Away && s.clock <= now && s.pool.entries != [] && |s.pool.entries| <= cfg.poolSize
    ensures Exec(cfg, s, steps) == Some(AfterRound(s, now, dead))
  {
    var es := s.pool.entries;
    var lo := |es| - Min(|es|, BATCH);
    var batch := es[lo..];
    var a := Apply(cfg, s, TakerPop(now));
    assert a == s.(pool := s.pool.(entries := es[..lo]), clock := now, taker := Checking(batch, [], None, now));
    ChecksFind(cfg, a, dead);
    var b := Exec(cfg, a, Checks(batch, dead)).value;
    assert b == Checked(s, now, dead);
    CheckedDone(cfg, s, now, dead);
    ExecSteps(cfg, s, TakerPop(now), Checks(batch, dead), TakerDone);
    steps := [TakerPop(now)] + Checks(batch, dead) + [TakerDone];
  }

  /** What the whole call leaves behind. */
  function AfterCall(s: State, now: nat, dead: nat -> bool): State {
    var r := PoolModel.TakeLive(s.pool.entries, Usable(dead, now));
    var t := s.(pool := s.pool.(entries := r.left), clock := now, closed := Close(s.closed, r.closed));
    match r.result
    case None => t
    case Some(e) => t.(clients := s.clients + multiset{e.fd}, handed := s.handed + [Handout(e, now)])
  }

  lemma CallHits(s: State, now: nat, dead: nat -> bool)
    requires s.pool.entries != []
    requires var batch := s.pool.entries[|s.pool.entries| - Min(|s.pool.entries|, BATCH)..];
             FirstUsable(batch, Usable(dead, now)) < |batch|
    ensures AfterCall(s, now, dead) == AfterRound(s, now, dead)
  {
  }

  lemma CallMisses(s: State, now: nat, dead: nat -> bool)
    requires s.pool.entries != []
    requires var batch := s.pool.entries[|s.pool.entries| - Min(|s.pool.entries|, BATCH)..];
             FirstUsable(batch, Usable(dead, now)) == |batch|
    ensures AfterCall(s, now, dead) == AfterCall(AfterRound(s, now, dead), now, dead)
  {
    var es := s.pool.entries;
    var lo := |es| - Min(|es|, BATCH);
    var batch, r := es[lo..], PoolModel.TakeLive(es[..lo], Usable(dead, now));
    CloseBoth(s.closed, batch, r.closed);
    CloseSwap(s.closed, batch, r.closed);
  }

  /** Undisturbed, the taker hands out, closes and leaves exactly what `TakeLive` says. */
  lemma {:induction false} TakerAlone(cfg: Config, s: State, now: nat, dead: nat -> bool) returns (steps: seq<Step>)
    requires s.taker == Away && s.clock <= now && |s.pool.entries| <= cfg.poolSize
    ensures Exec(cfg, s, steps) == Some(AfterCall(s, now, dead))
    decreases |s.pool.entries|
  {
    var es := s.pool.entries;
    if es == [] {
      steps := [TakerPop(now)];
      assert Exec(cfg, Apply(cfg, s, TakerPop(now)), []) == Some(Apply(cfg, s, TakerPop(now))) && steps[1..] == [];
    } else {
      var batch := es[|es| - Min(|es|, BATCH)..];
      steps := RoundAlone(cfg, s, now, dead);
      if FirstUsable(batch, Usable(dead, now)) < |batch| {
        CallHits(s, now, dead);
      } else {
        CallMisses(s, now, dead);
        var more := TakerAlone(cfg, AfterRound(s, now, dead), now, dead);
        ExecJoin(cfg, s, steps, more);
        steps := steps + more;
      }
    }
  }

  function Looks(batch: seq<Entry>, dead: nat -> bool): seq<Step> {
    if batch == [] then [] else Looks(batch[..|batch| - 1], dead) + [SweepCheck(dead(batch[|batch| - 1].fd))]
  }

  lemma {:induction false} LooksAhead(cfg: Config, s: State, dead: nat -> bool, batch: seq<Entry>, rest: seq<Entry>)
    requires s.sweeper.Sweeping? && s.sweeper.batch == batch + rest
    ensures Exec(cfg, s, Looks(batch, dead))
            == Some(s.(sweeper := s.sweeper.(batch := rest, alive := s.sweeper.alive + Sort(batch, dead).0),
                       closed := Close(s.closed, Sort(batch, dead).1)))
  {
    if batch == [] {
      assert batch + rest == rest && s.sweeper.alive + [] == s.sweeper.alive;
    } else {
      var n := |batch| - 1;
      assert batch + rest == batch[..n] + ([batch[n]] + rest);
      LooksAhead(cfg, s, dead, batch[..n], [batch[n]] + rest);
      var m := Exec(cfg, s, Looks(batch[..n], dead)).value;
      var last := SweepCheck(dead(batch[n].fd));
      ExecLast(cfg, s, Looks(batch[..n], dead), last);
      assert ([batch[n]] + rest)[1..] == rest;
      var (alive, closed) := Sort(batch[..n], dead);
      assert s.sweeper.alive + (alive + [batch[n]]) == s.sweeper.alive + alive + [batch[n]];
      assert (closed + [batch[n]])[..|closed|] == closed;
    }
  }

  /** Undisturbed, the sweeper keeps the live entries of its batch in order and closes the others. */
  lemma SweepAlone(cfg: Config, s: State, now: nat, dead: nat -> bool)
    requires s.sweeper == Asleep && s.clock <= now
    ensures var (pool, batch) := PoolModel.PopBatch(s.pool, SweepBatch(cfg));
            Exec(cfg, s, [Wake(now, true)] + Looks(batch, dead))
            == Some(s.(pool := pool, clock := now, sweeper := Sweeping([], Sort(batch, dead).0, true, now),
                       closed := Close(s.closed, Sort(batch, dead).1)))
  {
    var (pool, batch) := PoolModel.PopBatch(s.pool, SweepBatch(cfg));
    var a := Apply(cfg, s, Wake(now, true));
    assert batch + [] == batch;
    LooksAhead(cfg, a, dead, batch, []);
    var alive := Sort(batch, dead).0;
    assert [] + alive == alive;
    assert ([Wake(now, true)] + Looks(batch, dead))[1..] == Looks(batch, dead);
  }
}
