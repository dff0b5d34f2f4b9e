/**
 The `Pool` of relay-rs/src/pool.rs as the object behind the mutex.  Each method is one lock-held
 region (or, for `TakeLive`, one whole call run without interference), proved to do to the pool what
 the functions of PoolModel say.
 */
module Pools {
  import opened Wrappers
  import opened Jitter
  import opened PoolModel

  /** Alive according to `socket_dead_fast`, and not past its time-to-live. */
  function Usable(dead: nat -> bool, now: nat): Entry -> bool {
    (e: Entry) => !dead(e.fd) && PoolModel.Fresh(e, now)
  }

  /** The live ones and the dead ones, each in order. */
  function Sort(batch: seq<Entry>, dead: nat -> bool): (r: (seq<Entry>, seq<Entry>))
    ensures |r.0| + |r.1| == |batch|
  {
    if batch == [] then ([], [])
    else
      var n := |batch| - 1;
      var (alive, closed) := Sort(batch[..n], dead);
      if dead(batch[n].fd) then (alive, closed + [batch[n]]) else (alive + [batch[n]], closed)
  }

  class PoolObject {
    const cfg: Config
    var entries: seq<Entry>
    var pending: nat
    var failStreak: nat
    var pauseUntil: Option<nat>
    var rng: Word

    ghost function View(): Pool
      reads this
    {
      Pool(entries, pending, failStreak, pauseUntil, rng)
    }

    constructor (cfg: Config, seed: Word)
      ensures this.cfg == cfg && View() == Pool([], 0, 0, None, seed)
    {
      this.cfg, entries, pending, failStreak, pauseUntil, rng := cfg, [], 0, 0, None, seed;
    }

    /**
     A socket gets in at the end, and only while there is room; its time-to-live is within the
     configured spread.  A refused one leaves entries and generator as they were.
     */
    predicate Admitted(p: Pool, q: Pool, fd: nat, now: nat, ok: bool) {
      && (ok <==> |p.entries| < cfg.poolSize)
      && (!ok ==> q.entries == p.entries && q.rng == p.rng) && (ok ==> q.rng == NextRng(p.rng))
      && (ok ==>
            && |q.entries| == |p.entries| + 1 && p.entries <= q.entries
            && var e := q.entries[|p.entries|];
               && e.fd == fd && e.birth == now
               && (cfg.Validated() && cfg.NoWrap() ==>
                     TtlMin(cfg.ttlMs, cfg.jitterPct) <= e.ttl <= TtlMax(cfg.ttlMs, cfg.jitterPct)))
    }

    method Put(fd: nat, now: nat) returns (ok: bool)
      modifies this
      ensures (View(), ok) == PoolModel.Put(cfg, old(View()), fd, now)
      ensures Admitted(old(View()), View(), fd, now, ok)
    {
      if cfg.Validated() && cfg.NoWrap() {
        TtlWithin(cfg.ttlMs, cfg.jitterPct, Value(NextRng(rng)));
      }
      if |entries| < cfg.poolSize {
        rng := NextRng(rng);
        entries := entries + [Entry(fd, now, JitteredTtl(cfg.ttlMs, cfg.jitterPct, Value(rng)))];
        return true;
      }
      return false;
    }

    method PopBatch(n: nat) returns (batch: seq<Entry>)
      modifies `entries
      ensures (View(), batch) == PoolModel.PopBatch(old(View()), n)
      ensures old(entries) == entries + batch && |batch| == Min(|old(entries)|, n)
    {
      var len := |entries|;
      var take := Min(len, n);
      if take == 0 {
        assert entries[..len] == entries && entries[len..] == [];
        return [];
      }
      batch := entries[len - take..];
      entries := entries[..len - take];
    }

    /** Give entries back as far as they fit; the surplus is closed. */
    method GiveBack(es: seq<Entry>) returns (surplus: seq<Entry>)
      modifies `entries
      ensures (View(), surplus) == Restore(cfg, old(View()), es)
      ensures |old(entries)| + |es| <= cfg.poolSize ==> entries == old(entries) + es && surplus == []
    {
      var cap := SatSub(cfg.poolSize, |entries|);
      var fit := Min(|es|, cap);
      entries, surplus := entries + es[..fit], es[fit..];
      assert fit == |es| ==> es[..fit] == es;
    }

    /** The liveness checks on one batch, made without the lock. */
    method Check(batch: seq<Entry>, dead: nat -> bool, now: nat)
      returns (result: Option<Entry>, unused: seq<Entry>, closed: seq<Entry>)
      ensures var i := FirstUsable(batch, Usable(dead, now));
              && closed == batch[..i]
              && result == (if i < |batch| then Some(batch[i]) else None)
              && unused == (if i < |batch| then batch[i + 1..] else [])
      ensures closed + (if result.Some? then [result.value] else []) + unused == batch
      ensures result.None? ==> unused == []
      ensures result.Some? ==> !dead(result.value.fd) && SatSub(now, result.value.birth) <= result.value.ttl
      ensures forall e :: e in closed ==> dead(e.fd) || SatSub(now, e.birth) > e.ttl
    {
      result, unused, closed := None, [], [];
      ghost var usable := Usable(dead, now);
      for i := 0 to |batch|
        invariant result.None? ==> unused == [] && closed == batch[..i] && forall j :: 0 <= j < i ==> !usable(batch[j])
        invariant result.Some? ==>
                    var hit := |closed|;
                    && hit < i && closed == batch[..hit] && unused == batch[hit + 1..i]
                    && result == Some(batch[hit]) && usable(batch[hit])
                    && forall j :: 0 <= j < hit ==> !usable(batch[j])
      {
        var entry := batch[i];
        if result.Some? {
          unused := unused + [entry];
        } else if !dead(entry.fd) && PoolModel.Fresh(entry, now) {
          result := Some(entry);
        } else {
          closed := closed + [entry];
        }
      }
    }

    /** The maintainer's liveness checks on its batch: the order is kept on both sides. */
    method SweepOut(batch: seq<Entry>, dead: nat -> bool) returns (alive: seq<Entry>, closed: seq<Entry>)
      ensures (alive, closed) == Sort(batch, dead)
      ensures forall e :: e in batch ==> e in (if dead(e.fd) then closed else alive)
      ensures (forall e :: e in alive ==> !dead(e.fd)) && (forall e :: e in closed ==> dead(e.fd))
    {
      alive, closed := [], [];
      for i := 0 to |batch|
        invariant (alive, closed) == Sort(batch[..i], dead)
        invariant forall e :: e in batch[..i] ==> e in (if dead(e.fd) then closed else alive)
        invariant (forall e :: e in alive ==> !dead(e.fd)) && (forall e :: e in closed ==> dead(e.fd))
      {
        assert batch[..i + 1] == batch[..i] + [batch[i]] && batch[..i + 1][..i] == batch[..i];
        if dead(batch[i].fd) {
          closed := closed + [batch[i]];
        } else {
          alive := alive + [batch[i]];
        }
      }
      assert batch[..|batch|] == batch;
    }

    /** One batch: pop it under the lock, check it without, give the unused entries back. */
    method TakeBatch(dead: nat -> bool, now: nat) returns (empty: bool, result: Option<Entry>, closed: seq<Entry>)
      requires |entries| <= cfg.poolSize
      modifies `entries
      ensures |entries| <= cfg.poolSize && (empty <==> old(entries) == [])
      ensures empty ==> entries == [] && result == None && closed == []
      ensures !empty ==> |entries| < |old(entries)|
      ensures var t := PoolModel.TakeLive(old(entries), Usable(dead, now));
              if empty || result.Some? then t == Taken(result, entries, closed)
              else var u := PoolModel.TakeLive(entries, Usable(dead, now)); t == u.(closed := u.closed + closed)
    {
      ghost var before := entries;
      var batch := PopBatch(BATCH);
      if batch == [] {
        return true, None, [];
      }
      var unused;
      ghost var front := entries;
      result, unused, closed := Check(batch, dead, now);
      if unused != [] {
        var surplus := GiveBack(unused);
      }
      empty := false;
      assert entries == front + unused;
      assert result.None? ==> closed == batch;
    }

    /** `take_live_unlocked`, alone and at one instant. */
    method TakeLive(dead: nat -> bool, now: nat) returns (result: Option<Entry>, closed: seq<Entry>)
      requires |entries| <= cfg.poolSize
      modifies `entries
      ensures Taken(result, entries, closed) == PoolModel.TakeLive(old(entries), Usable(dead, now))
      // What is handed out is alive and young enough, what is closed is not, and nothing is missed.
      ensures result.Some? ==> !dead(result.value.fd) && SatSub(now, result.value.birth) <= result.value.ttl
      ensures forall e :: e in closed ==> dead(e.fd) || SatSub(now, e.birth) > e.ttl
      ensures result.None? <==> forall e :: e in old(entries) ==> dead(e.fd) || SatSub(now, e.birth) > e.ttl
    {
      TakeLiveComplete(entries, Usable(dead, now));
      closed := [];
      while true
        invariant |entries| <= cfg.poolSize
        invariant var t := PoolModel.TakeLive(entries, Usable(dead, now));
                  t.(closed := t.closed + closed) == PoolModel.TakeLive(old(entries), Usable(dead, now))
        decreases |entries|
      {
        var empty, dropped;
        empty, result, dropped := TakeBatch(dead, now);
        closed := dropped + closed;
        if empty || result.Some? {
          return result, closed;
        }
      }
    }

    /** The maintainer's lock-held region; `accepts` is how many refill requests the workers' channel takes. */
    method Tick(alive: seq<Entry>, rotate: bool, now: nat, accepts: nat)
      returns (closed: seq<Entry>, sent: nat)
      modifies this
      ensures var (q, dropped) := Renew(cfg, old(View()), alive, rotate, now);
              && closed == dropped
              && sent == Min(accepts, Wanted(cfg, |q.entries|, q.pending, Paused(q, now)))
              && View() == q.(pending := q.pending + sent)
    {
      closed := GiveBack(alive);
      if rotate {
        var kept, dropped := Retain(now);
        entries, closed := kept, closed + dropped;
      }
      sent := Refill(now, accepts);
    }

    /** Ask the workers for as many connects as are wanted; a refused request ends it. */
    method Refill(now: nat, accepts: nat) returns (sent: nat)
      modifies `pending
      ensures sent == Min(accepts, Wanted(cfg, |entries|, old(pending), Paused(View(), now)))
      ensures pending == old(pending) + sent
      ensures pauseUntil.Some? && now < pauseUntil.value ==> sent == 0
    {
      var deficit := SatSub(cfg.poolSize, |entries| + pending);
      var belowMin := cfg.minSize > 0 && |entries| < cfg.minSize;
      var paused := pauseUntil.Some? && now < pauseUntil.value;
      sent := 0;
      if (deficit > 0 || belowMin) && !paused {
        var want;
        if belowMin {
          want := Min(cfg.minSize - |entries|, cfg.refillBatch);
        } else {
          var cap := if deficit > cfg.poolSize / 2 then cfg.refillBatch else 2;
          want := Min(Min(deficit, cfg.refillBatch), cap);
        }
        while sent < want
          invariant sent <= want && sent <= accepts && pending == old(pending) + sent
        {
          pending := pending + 1;
          if sent == accepts {
            pending := pending - 1;
            break;
          }
          sent := sent + 1;
        }
      }
    }

    /** `retain`: the entries still within their time-to-live. */
    method Retain(now: nat) returns (kept: seq<Entry>, dropped: seq<Entry>)
      ensures (kept, dropped) == Partition(entries, now)
      ensures forall e :: e in kept ==> SatSub(now, e.birth) <= e.ttl
      ensures forall e :: e in dropped ==> SatSub(now, e.birth) > e.ttl
    {
      PartitionMeans(entries, now);
      kept, dropped := [], [];
      for i := 0 to |entries|
        invariant (kept, dropped) == Partition(entries[..i], now)
      {
        assert entries[..i + 1][..i] == entries[..i];
        if PoolModel.Fresh(entries[i], now) {
          kept := kept + [entries[i]];
        } else {
          dropped := dropped + [entries[i]];
        }
      }
      assert entries[..|entries|] == entries;
    }

    method ConnectSuccess(fd: nat, now: nat) returns (ok: bool)
      modifies this
      ensures (View(), ok) == Success(cfg, old(View()), fd, now)
      ensures Admitted(old(View()), View(), fd, now, ok)
      ensures old(pending) > 0 ==> pending == old(pending) - 1
      ensures failStreak == 0 && !Paused(View(), now)   // a success ends the pause
    {
      pending := SatSub(pending, 1);
      failStreak := 0;
      pauseUntil := None;
      ok := Put(fd, now);
    }

    method ConnectFail(now: nat)
      modifies this
      ensures View() == Fail(cfg, old(View()), now)
      ensures entries == old(entries) && rng == old(rng)
      ensures old(pending) > 0 ==> pending == old(pending) - 1
      // a streak as long as a batch pauses the refills, for 200 ms a failure and at most 5 s
      ensures if failStreak < cfg.refillBatch then pauseUntil == old(pauseUntil)
              else pauseUntil == Some(now + (if failStreak <= 25 then 200 * failStreak else 5000))
      ensures failStreak == old(failStreak) + 1
    {
      pending := SatSub(pending, 1);
      failStreak := failStreak + 1;
      if failStreak >= cfg.refillBatch {
        pauseUntil := Some(now + Min(200 * failStreak, 5000));
      }
    }
  }
}
