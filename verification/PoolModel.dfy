/**
 What each lock-held region of relay-rs/src/pool.rs does to the pool, as functions on its value.
 The class in Pool.dfy is proved to compute them; the protocol in PoolProtocol.dfy interleaves them.
 */
module PoolModel {
  import opened Wrappers
  import opened Jitter

  /** The settings the pool depends on, and the bounds that `Config::validate` guarantees. */
  datatype Config = Config(poolSize: nat, refillBatch: nat, minSize: nat, ttlMs: nat, jitterPct: nat) {
    predicate Validated() {
      && poolSize <= 256 && refillBatch >= 1 && (poolSize > 0 ==> refillBatch <= poolSize)
      && minSize <= poolSize && 10000 <= ttlMs < WORD && jitterPct <= 50
    }

    /** The top of the time-to-live spread fits 64 bits. */
    predicate NoWrap() {
      ttlMs + (ttlMs * jitterPct % WORD) / 100 < WORD
    }
  }

  /** A pre-connected socket.  Descriptors are numbered in the order they are opened. */
  datatype Entry = Entry(fd: nat, birth: nat, ttl: nat)

  predicate Fresh(e: Entry, now: nat) {
    SatSub(now, e.birth) <= e.ttl
  }

  datatype Pool = Pool(entries: seq<Entry>, pending: nat, failStreak: nat, pauseUntil: Option<nat>, rng: Word)

  /** `put`: refused when the pool is full. */
  function Put(cfg: Config, p: Pool, fd: nat, now: nat): (Pool, bool) {
    if |p.entries| < cfg.poolSize then
      var rng := NextRng(p.rng);
      var e := Entry(fd, now, JitteredTtl(cfg.ttlMs, cfg.jitterPct, Value(rng)));
      (p.(entries := p.entries + [e], rng := rng), true)
    else (p, false)
  }

  /** `pop_batch`: the last `n` entries, or all of them. */
  function PopBatch(p: Pool, n: nat): (Pool, seq<Entry>) {
    var keep := |p.entries| - Min(|p.entries|, n);
    (p.(entries := p.entries[..keep]), p.entries[keep..])
  }

  /** Put entries back as far as there is room; the surplus is closed. */
  function Restore(cfg: Config, p: Pool, es: seq<Entry>): (Pool, seq<Entry>) {
    var fit := Min(|es|, SatSub(cfg.poolSize, |p.entries|));
    (p.(entries := p.entries + es[..fit]), es[fit..])
  }

  /** Nothing is lost, the order is kept, and the surplus is only what there is no room for. */
  lemma RestoreMeans(cfg: Config, p: Pool, es: seq<Entry>)
    ensures var (q, surplus) := Restore(cfg, p, es);
            && q.entries + surplus == p.entries + es && p.entries <= q.entries
            && (surplus != [] ==> |q.entries| >= cfg.poolSize)
            && (|q.entries| > |p.entries| ==> |q.entries| <= cfg.poolSize)
            && q == p.(entries := q.entries)
  {
    var fit := Min(|es|, SatSub(cfg.poolSize, |p.entries|));
    assert es == es[..fit] + es[fit..];
  }

  /** The entries within their time-to-live, in order, and the others. */
  function Partition(es: seq<Entry>, now: nat): (r: (seq<Entry>, seq<Entry>))
    ensures |r.0| + |r.1| == |es|
  {
    if es == [] then ([], [])
    else
      var n := |es| - 1;
      var (kept, dropped) := Partition(es[..n], now);
      if Fresh(es[n], now) then (kept + [es[n]], dropped) else (kept, dropped + [es[n]])
  }

  lemma {:induction false} PartitionMeans(es: seq<Entry>, now: nat)
    ensures var (kept, dropped) := Partition(es, now);
            && (forall e :: e in kept ==> e in es && SatSub(now, e.birth) <= e.ttl)
            && (forall e :: e in dropped ==> e in es && SatSub(now, e.birth) > e.ttl)
            && (forall e :: e in es ==> e in kept || e in dropped)
  {
    if es != [] {
      var n := |es| - 1;
      PartitionMeans(es[..n], now);
      assert es == es[..n] + [es[n]];
    }
  }

  /** Both parts keep the order: a list is partitioned piece by piece. */
  lemma {:induction false} PartitionConcat(a: seq<Entry>, b: seq<Entry>, now: nat)
    ensures Partition(a + b, now).0 == Partition(a, now).0 + Partition(b, now).0
    ensures Partition(a + b, now).1 == Partition(a, now).1 + Partition(b, now).1
  {
    if b == [] {
      assert a + b == a;
    } else {
      var n := |b| - 1;
      assert (a + b)[..|a| + n] == a + b[..n];
      PartitionConcat(a, b[..n], now);
    }
  }

  function Deficit(cfg: Config, entries: nat, pending: nat): nat {
    SatSub(cfg.poolSize, entries + pending)
  }

  /** How many refills a tick asks for. */
  function Wanted(cfg: Config, entries: nat, pending: nat, paused: bool): nat {
    var deficit := Deficit(cfg, entries, pending);
    var belowMin := cfg.minSize > 0 && entries < cfg.minSize;
    if (deficit == 0 && !belowMin) || paused then 0
    else if belowMin then Min(cfg.minSize - entries, cfg.refillBatch)
    else Min(Min(deficit, cfg.refillBatch), if deficit > cfg.poolSize / 2 then cfg.refillBatch else 2)
  }

  /** What speaks against asking for `n` connects: a pause, the batch, the target, and in the steady state the pace. */
  predicate Reasonable(cfg: Config, entries: nat, pending: nat, paused: bool, n: nat) {
    || n == 0
    || (!paused && n <= cfg.refillBatch
        && if cfg.minSize > entries then entries + n <= cfg.minSize
           else
             && entries + pending + n <= cfg.poolSize
             && (n <= 2 || cfg.poolSize - (entries + pending) > cfg.poolSize / 2))
  }

  /** A tick asks for as many connects as nothing speaks against. */
  lemma WantedExact(cfg: Config, entries: nat, pending: nat, paused: bool, n: nat)
    ensures n <= Wanted(cfg, entries, pending, paused) <==> Reasonable(cfg, entries, pending, paused, n)
  {
  }

  function Paused(p: Pool, now: nat): bool {
    p.pauseUntil.Some? && now < p.pauseUntil.value
  }

  /** The maintainer's lock-held region up to the refill: survivors back in, expired entries out. */
  function Renew(cfg: Config, p: Pool, alive: seq<Entry>, rotate: bool, now: nat): (Pool, seq<Entry>) {
    var (q, surplus) := Restore(cfg, p, alive);
    if !rotate then (q, surplus)
    else
      var (kept, dropped) := Partition(q.entries, now);
      (q.(entries := kept), surplus + dropped)
  }

  /** Survivors go back behind the entries, as far as there is room; after a rotation none is past its time. */
  lemma RenewMeans(cfg: Config, p: Pool, alive: seq<Entry>, rotate: bool, now: nat)
    ensures var (q, dropped) := Renew(cfg, p, alive, rotate, now);
            var fit := Min(|alive|, SatSub(cfg.poolSize, |p.entries|));
            && (rotate ==> forall e :: e in q.entries ==> SatSub(now, e.birth) <= e.ttl)
            && (!rotate ==> q.entries == p.entries + alive[..fit])
            && (forall e :: e in p.entries + alive[..fit] && SatSub(now, e.birth) <= e.ttl ==> e in q.entries)
            && q == p.(entries := q.entries)
  {
    PartitionMeans(Restore(cfg, p, alive).0.entries, now);
  }

  /** `connect_success`. */
  function Success(cfg: Config, p: Pool, fd: nat, now: nat): (Pool, bool) {
    Put(cfg, p.(pending := SatSub(p.pending, 1), failStreak := 0, pauseUntil := None), fd, now)
  }

  /** `connect_fail`. */
  function Fail(cfg: Config, p: Pool, now: nat): Pool {
    var q := p.(pending := SatSub(p.pending, 1), failStreak := p.failStreak + 1);
    if q.failStreak >= cfg.refillBatch then q.(pauseUntil := Some(now + Min(200 * q.failStreak, 5000))) else q
  }

  const BATCH: nat := 4

  /** The first usable entry of a batch. */
  function FirstUsable(batch: seq<Entry>, usable: Entry -> bool): (i: nat)
    ensures i <= |batch| && (i < |batch| ==> usable(batch[i]))
    ensures forall j :: 0 <= j < i ==> !usable(batch[j])
  {
    if batch == [] then 0
    else if usable(batch[0]) then 0
    else
      var i := FirstUsable(batch[1..], usable);
      assert forall j :: 0 < j <= i ==> batch[j] == batch[1..][j - 1];
      i + 1
  }

  /** `take_live_unlocked` run alone: the entry taken, the pool left, and the entries closed. */
  datatype Taken = Taken(result: Option<Entry>, left: seq<Entry>, closed: seq<Entry>)

  function TakeLive(es: seq<Entry>, usable: Entry -> bool): Taken {
    if es == [] then Taken(None, [], [])
    else
      var lo := |es| - Min(|es|, BATCH);
      var batch := es[lo..];
      var i := FirstUsable(batch, usable);
      if i < |batch| then Taken(Some(batch[i]), es[..lo] + batch[i + 1..], batch[..i])
      else
        var t := TakeLive(es[..lo], usable);
        t.(closed := t.closed + batch)
  }

  /** Nothing is found iff nothing in the pool is usable. */
  lemma {:induction false} TakeLiveComplete(es: seq<Entry>, usable: Entry -> bool)
    ensures TakeLive(es, usable).result == None <==> forall e :: e in es ==> !usable(e)
    ensures TakeLive(es, usable).result.Some? ==> usable(TakeLive(es, usable).result.value)
    ensures forall e :: e in TakeLive(es, usable).closed ==> !usable(e)
  {
    if es != [] {
      var lo := |es| - Min(|es|, BATCH);
      var i := FirstUsable(es[lo..], usable);
      TakeLiveComplete(es[..lo], usable);
      assert es == es[..lo] + es[lo..];
      if i < |es| - lo {
        assert es[lo..][i] in es;
      }
    }
  }

  /** The taken entry is the first usable one of `es[lo..hi]`, and nothing behind that is usable. */
  ghost predicate Located(es: seq<Entry>, usable: Entry -> bool, t: Taken, lo: nat, hit: nat, hi: nat) {
    && lo <= hit < hi <= |es|
    && (forall j :: hi <= j < |es| || lo <= j < hit ==> !usable(es[j]))
    && usable(es[hit]) && t.result == Some(es[hit])
    && t.left == es[..lo] + es[hit + 1..hi]
    && t.closed == es[lo..hit] + es[hi..]
  }

  lemma LocatedBehind(es: seq<Entry>, usable: Entry -> bool, end: nat, t: Taken, lo: nat, hit: nat, hi: nat)
    requires end <= |es| && Located(es[..end], usable, t, lo, hit, hi)
    requires forall j :: end <= j < |es| ==> !usable(es[j])
    ensures Located(es, usable, t.(closed := t.closed + es[end..]), lo, hit, hi)
  {
    var front := es[..end];
    assert forall j :: 0 <= j < end ==> front[j] == es[j];
    assert front[..lo] == es[..lo] && front[hit + 1..hi] == es[hit + 1..hi];
    assert front[lo..hit] == es[lo..hit];
    assert front[hi..] + es[end..] == es[hi..];
  }

  /**
   Where the entry comes from: the first usable one of the last batch of four, counting from the
   tail, that has one.  What is left is everything before that batch, and what follows in it.
   */
  lemma {:induction false} TakeLivePlace(es: seq<Entry>, usable: Entry -> bool)
    returns (lo: nat, hit: nat, hi: nat, skipped: nat)
    requires exists e :: e in es && usable(e)
    ensures hi <= |es| && hi == |es| - BATCH * skipped && lo == hi - Min(hi, BATCH)
    ensures Located(es, usable, TakeLive(es, usable), lo, hit, hi)
  {
    var end := |es| - Min(|es|, BATCH);
    var i := FirstUsable(es[end..], usable);
    if i < |es| - end {
      lo, hit, hi, skipped := end, end + i, |es|, 0;
      LocatedHere(es, usable, end, i);
    } else {
      LaterBatch(es, usable, end);
      lo, hit, hi, skipped := TakeLivePlace(es[..end], usable);
      LocatedBehind(es, usable, end, TakeLive(es[..end], usable), lo, hit, hi);
      skipped := skipped + 1;
    }
  }

  lemma LocatedHere(es: seq<Entry>, usable: Entry -> bool, lo: nat, i: nat)
    requires lo == |es| - Min(|es|, BATCH) && i == FirstUsable(es[lo..], usable) < |es| - lo
    ensures Located(es, usable, TakeLive(es, usable), lo, lo + i, |es|)
  {
    Slices(es, lo, lo + i);
    TakeLiveHit(es, usable, lo, i);
    forall j | lo <= j < lo + i
      ensures !usable(es[j])
    {
      assert es[j] == es[lo..][j - lo];
    }
  }

  lemma Slices(es: seq<Entry>, lo: nat, hit: nat)
    requires lo <= hit < |es|
    ensures es[lo..][hit - lo] == es[hit]
    ensures es[lo..][hit - lo + 1..] == es[hit + 1..|es|] && es[lo..][..hit - lo] == es[lo..hit] + es[|es|..]
  {
  }

  lemma TakeLiveHit(es: seq<Entry>, usable: Entry -> bool, lo: nat, i: nat)
    requires lo == |es| - Min(|es|, BATCH) && i == FirstUsable(es[lo..], usable) < |es| - lo
    ensures TakeLive(es, usable) == Taken(Some(es[lo..][i]), es[..lo] + es[lo..][i + 1..], es[lo..][..i])
  {
  }

  lemma LaterBatch(es: seq<Entry>, usable: Entry -> bool, end: nat)
    requires end <= |es| && FirstUsable(es[end..], usable) == |es| - end
    requires exists e :: e in es && usable(e)
    ensures forall j :: end <= j < |es| ==> !usable(es[j])
    ensures exists e :: e in es[..end] && usable(e)
  {
    assert forall j :: end <= j < |es| ==> es[j] == es[end..][j - end];
    var e :| e in es && usable(e);
    var j :| 0 <= j < |es| && es[j] == e;
    assert e == es[..end][j];
  }
}
