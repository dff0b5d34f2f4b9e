/**
 The rate-limited logger of relay-rs/src/log.rs.  Any thread pushes; only the main thread flushes.
 The flush runs step by step, and between any two of its accesses to shared memory `Interfere` lets
 the other threads push as often as they like.
 */
module Logger {
  const LOG_QUEUE_MAX: nat := 4096

  type Msg = string

  // ---- What has become of the messages ----

  datatype Fate = Emitted | Drained

  /** The messages taken from the queue so far, and what became of each. */
  datatype Past = Begin | Met(before: Past, msg: Msg, fate: Fate)

  function All(p: Past): seq<Msg> {
    match p
    case Begin => []
    case Met(before, msg, _) => All(before) + [msg]
  }

  /** Those that met a given fate, in the order in which they were taken. */
  function Chosen(p: Past, which: Fate): seq<Msg> {
    match p
    case Begin => []
    case Met(before, msg, fate) => Chosen(before, which) + (if fate == which then [msg] else [])
  }

  /** Every message met one fate. */
  lemma {:induction false} FatesPartition(p: Past)
    ensures |Chosen(p, Emitted)| + |Chosen(p, Drained)| == |All(p)|
  {
    if p.Met? {
      FatesPartition(p.before);
    }
  }

  /** Where the k-th chosen message stood: positions grow, so the order is kept. */
  lemma {:induction false} ChosenInOrder(p: Past, which: Fate) returns (at: seq<nat>)
    ensures |at| == |Chosen(p, which)|
    ensures forall k :: 0 <= k < |at| ==> at[k] < |All(p)| && Chosen(p, which)[k] == All(p)[at[k]]
    ensures forall j, k :: 0 <= j < k < |at| ==> at[j] < at[k]
  {
    at := [];
    if p.Met? {
      at := ChosenInOrder(p.before, which);
      if p.fate == which {
        at := at + [|All(p.before)|];
      }
    }
  }

  // ---- What has been written ----

  datatype Line = Notice(n: nat) | Text(msg: Msg)

  datatype Paper = Blank | Printed(before: Paper, line: Line)

  function Lines(p: Paper): nat {
    if p.Blank? then 0 else Lines(p.before) + 1
  }

  /** The message lines. */
  function Texts(p: Paper): (texts: seq<Msg>)
    ensures |texts| <= Lines(p)
  {
    match p
    case Blank => []
    case Printed(before, line) => Texts(before) + (if line.Text? then [line.msg] else [])
  }

  /** The drops that the notices report. */
  function Reported(p: Paper): nat {
    match p
    case Blank => 0
    case Printed(before, line) => Reported(before) + (if line.Notice? then line.n else 0)
  }

  /** Only messages have been added. */
  predicate OnlyTexts(p: Paper, q: Paper) {
    p == q || (q.Printed? && q.line.Text? && OnlyTexts(p, q.before))
  }

  /** What a flush that may write has written: the drops held, if any, in one notice, and then only messages. */
  predicate Noticed(p: Paper, q: Paper, held: nat) {
    OnlyTexts(if held > 0 then Printed(p, Notice(held)) else p, q)
  }

  /** Messages report no drops, and each takes a line. */
  lemma {:induction false} TextsOnly(p: Paper, q: Paper)
    requires OnlyTexts(p, q)
    ensures Reported(q) == Reported(p) && Lines(q) - Lines(p) == |Texts(q)| - |Texts(p)| >= 0
  {
    if p != q {
      TextsOnly(p, q.before);
    }
  }

  class Log {
    var queue: seq<Msg>     // the bounded channel
    var sendDrops: nat      // SEND_DROPS
    var lastSec: nat
    var quota: nat
    var dropped: nat
    const rate: nat
    const enabled: bool
    var pushes: nat         // how many more pushes the other threads will make
    var counting: nat       // pushes that were refused and have yet to be added to SEND_DROPS
    ghost var accepted: seq<Msg>
    ghost var past: Past
    ghost var out: Paper
    ghost var refused: nat     // pushes that found the channel full
    ghost var noted: nat       // swapped out of SEND_DROPS and passed on to a notice
    ghost var lost: nat        // swapped out of SEND_DROPS and forgotten
    ghost var sinceReset: nat  // lines written by `MaybeFlush` since the last quota reset

    /** What was accepted has met its fate or is queued, in this order; what was emitted is what is printed. */
    ghost predicate Records()
      reads `queue, `accepted, `past, `out
    {
      && accepted == All(past) + queue && |queue| <= LOG_QUEUE_MAX
      && Texts(out) == Chosen(past, Emitted)
    }

    /** What the counters say while `swapped` drops, taken out of SEND_DROPS, are not yet noted or lost. */
    ghost predicate Counters(swapped: nat)
      reads this
    {
      && refused == noted + lost + sendDrops + counting + swapped
      && (enabled ==> Reported(out) + dropped == |Chosen(past, Drained)| + noted)
      && quota + sinceReset == rate
    }

    ghost predicate Valid()
      reads this
    {
      Records() && Counters(0)
    }

    constructor (enabled: bool, rate: nat, pushes: nat)
      ensures Valid() && this.enabled == enabled && this.rate == rate && this.pushes == pushes
      ensures accepted == [] && past == Begin && out == Blank && lastSec == 0
    {
      queue, sendDrops, lastSec, quota, dropped := [], 0, 0, rate, 0;
      this.rate, this.enabled, this.pushes := rate, enabled, pushes;
      accepted, past, out := [], Begin, Blank;
      refused, counting, noted, lost, sinceReset := 0, 0, 0, 0, 0;
    }

    /** `try_send`, the first half of `push`. */
    method TrySend(msg: Msg) returns (ok: bool)
      requires Valid()
      modifies `queue, `accepted, `refused, `counting
      ensures Valid() && ok == (|old(queue)| < LOG_QUEUE_MAX)
      ensures if ok then queue == old(queue) + [msg] && accepted == old(accepted) + [msg] && refused == old(refused)
              else queue == old(queue) && accepted == old(accepted) && refused == old(refused) + 1
      ensures counting == old(counting) + (if ok then 0 else 1)
    {
      ok := |queue| < LOG_QUEUE_MAX;
      if ok {
        assert All(past) + (queue + [msg]) == All(past) + queue + [msg];
        queue, accepted := queue + [msg], accepted + [msg];
      } else {
        refused, counting := refused + 1, counting + 1;
      }
    }

    /** The second half of a refused `push`: `SEND_DROPS.fetch_add(1)`. */
    method CountDrop()
      requires Valid() && counting > 0
      modifies `sendDrops, `counting
      ensures Valid() && sendDrops == old(sendDrops) + 1 && counting == old(counting) - 1
    {
      sendDrops, counting := sendDrops + 1, counting - 1;
    }

    /** What other threads may have done since the last look: push, and count what was refused. */
    twostate predicate Pushed()
      reads `queue, `sendDrops, `pushes, `accepted, `refused
    {
      && old(accepted) <= accepted && sendDrops >= old(sendDrops) && refused >= old(refused)
      && pushes <= old(pushes) && |queue| + pushes <= |old(queue)| + old(pushes)
    }

    method Interfere()
      requires Valid()
      modifies `queue, `sendDrops, `pushes, `accepted, `refused, `counting
      ensures Valid() && Pushed()
    {
      var go := true;
      while go && (pushes > 0 || counting > 0)
        invariant Valid() && Pushed()
        decreases 2 * pushes + counting
      {
        var msg: Msg, count: bool := *, *;
        if counting > 0 && (count || pushes == 0) {
          CountDrop();
        } else {
          pushes := pushes - 1;
          var _ := TrySend(msg);
        }
        go := *;
      }
    }

    /** `try_recv`, and the message is printed. */
    method Print() returns (got: bool)
      requires Valid()
      modifies `queue, `past, `out
      ensures Valid() && got == (old(queue) != [])
      ensures if got then
                var msg := old(queue)[0];
                queue == old(queue)[1..] && out == Printed(old(out), Text(msg)) && past == Met(old(past), msg, Emitted)
              else queue == old(queue) && out == old(out) && past == old(past)
    {
      got := queue != [];
      if got {
        var msg := queue[0];
        assert queue == [msg] + queue[1..];
        assert All(past) + [msg] + queue[1..] == All(past) + ([msg] + queue[1..]);
        queue, out, past := queue[1..], Printed(out, Text(msg)), Met(past, msg, Emitted);
      }
    }

    /** `try_recv`, and the message is thrown away; only an enabled logger counts it. */
    method Discard() returns (got: bool)
      requires Valid()
      modifies `queue, `past, `dropped
      ensures Valid() && got == (old(queue) != [])
      ensures if got then
                && queue == old(queue)[1..] && past == Met(old(past), old(queue)[0], Drained)
                && dropped == old(dropped) + (if enabled then 1 else 0)
              else queue == old(queue) && past == old(past) && dropped == old(dropped)
    {
      got := queue != [];
      if got {
        var msg := queue[0];
        assert queue == [msg] + queue[1..];
        assert All(past) + [msg] + queue[1..] == All(past) + ([msg] + queue[1..]);
        queue, past := queue[1..], Met(past, msg, Drained);
        if enabled {
          dropped := dropped + 1;
        }
      }
    }

    /** How many messages have been thrown away. */
    ghost function Thrown(): nat
      reads `past
    {
      |Chosen(past, Drained)|
    }

    /** Throw the queue away, with whatever comes in meanwhile. */
    method Drain()
      requires Valid()
      modifies `queue, `sendDrops, `pushes, `accepted, `refused, `counting, `past, `dropped
      ensures Valid() && queue == [] && |accepted| >= |old(accepted)|
      ensures enabled ==> dropped - old(dropped) == Thrown() - old(Thrown())
      ensures !enabled ==> dropped == old(dropped)
    {
      var more := true;
      while more
        invariant Valid() && |accepted| >= |old(accepted)| && (!more ==> queue == [])
        invariant enabled ==> dropped - old(dropped) == Thrown() - old(Thrown())
        invariant !enabled ==> dropped == old(dropped)
        decreases |queue| + pushes, more
      {
        Interfere();
        more := Discard();
      }
    }

    /** Swap SEND_DROPS, and print the notice if there is anything to report and quota to report it. */
    method NoticeDrops() returns (swapped: nat)
      requires Valid() && enabled
      modifies `sendDrops, `dropped, `quota, `out, `noted, `lost, `sinceReset
      ensures Valid() && swapped == old(sendDrops)
      ensures if old(quota) > 0 && old(dropped) + swapped > 0
              then
                && out == Printed(old(out), Notice(old(dropped) + swapped)) && dropped == 0 && quota == old(quota) - 1
                && noted == old(noted) + swapped && lost == old(lost) && sinceReset == old(sinceReset) + 1
              else
                && out == old(out) && dropped == old(dropped) && quota == old(quota)
                && noted == old(noted) && lost == old(lost) + swapped && sinceReset == old(sinceReset)
    {
      swapped := sendDrops;
      sendDrops := 0;
      var total := dropped + swapped;
      if total > 0 && quota > 0 {
        Notify(total, swapped);
      } else {
        lost := lost + swapped;
      }
    }

    method Notify(total: nat, ghost swapped: nat)
      requires Records() && Counters(swapped) && quota > 0 && total == dropped + swapped
      modifies `dropped, `quota, `out, `noted, `sinceReset
      ensures Valid() && out == Printed(old(out), Notice(total))
      ensures dropped == 0 && quota == old(quota) - 1
      ensures noted == old(noted) + swapped && sinceReset == old(sinceReset) + 1
    {
      out := Printed(out, Notice(total));
      dropped, quota := 0, quota - 1;
      noted, sinceReset := noted + swapped, sinceReset + 1;
    }

    /** Print messages while there is quota. */
    method Emit()
      requires Valid() && enabled
      modifies `queue, `sendDrops, `pushes, `accepted, `refused, `counting, `past, `out, `quota, `sinceReset
      ensures Valid() && OnlyTexts(old(out), out) && Thrown() == old(Thrown()) && (quota > 0 ==> queue == [])
      ensures sinceReset - old(sinceReset) == Lines(out) - Lines(old(out)) && |accepted| >= |old(accepted)|
      ensures old(quota) == 0 ==> out == old(out) && quota == 0
    {
      while quota > 0
        invariant old(quota) == 0 ==> out == old(out) && quota == 0
        invariant Valid() && OnlyTexts(old(out), out) && Thrown() == old(Thrown())
        invariant sinceReset - old(sinceReset) == Lines(out) - Lines(old(out)) && |accepted| >= |old(accepted)|
      {
        var got := Print();
        if !got {
          break;
        }
        quota := quota - 1;
        sinceReset := sinceReset + 1;
        Interfere();
      }
    }

    /** `maybe_flush` past the quota reset. */
    method Flush() returns (ghost swapped: nat)
      requires Valid() && enabled
      modifies `queue, `sendDrops, `pushes, `accepted, `refused, `counting, `past, `out,
        `quota, `dropped, `noted, `lost, `sinceReset
      ensures Valid() && queue == [] && swapped >= old(sendDrops) && |accepted| >= |old(accepted)|
      ensures sinceReset - old(sinceReset) == Lines(out) - Lines(old(out))
      // messages are thrown away only once the quota is used up
      ensures quota > 0 ==> Thrown() == old(Thrown())
      ensures if old(quota) > 0 then
                && Noticed(old(out), out, old(dropped) + swapped) && dropped == Thrown() - old(Thrown())
                && lost == old(lost) && noted == old(noted) + swapped
              else
                && out == old(out) && dropped == old(dropped) + Thrown() - old(Thrown())
                && lost == old(lost) + swapped && noted == old(noted)
    {
      Interfere();
      swapped := NoticeDrops();
      Interfere();
      Emit();
      if quota == 0 {
        Drain();
      }
    }

    /**
     `maybe_flush`, `sec` being the current second.  With quota to begin with, every drop held so far is
     in the one notice of this flush, and what is held afterwards is what this flush itself has thrown
     away; without, what was swapped out of SEND_DROPS is lost.
     */
    method MaybeFlush(sec: nat) returns (ghost swapped: nat)
      requires Valid()
      modifies this
      ensures Valid() && queue == []
      ensures !enabled ==> out == old(out) && lost == old(lost) && dropped == old(dropped)
      ensures enabled ==> lastSec == sec && swapped >= old(sendDrops) && |accepted| >= |old(accepted)|
      ensures enabled && quota > 0 ==> Thrown() == old(Thrown())
      ensures enabled ==>
                var q := if sec != old(lastSec) then rate else old(quota);
                && sinceReset == (if sec != old(lastSec) then 0 else old(sinceReset)) + Lines(out) - Lines(old(out))
                && if q > 0 then
                     && Noticed(old(out), out, old(dropped) + swapped) && dropped == Thrown() - old(Thrown())
                     && lost == old(lost) && noted == old(noted) + swapped
                   else
                     && out == old(out) && dropped == old(dropped) + Thrown() - old(Thrown())
                     && lost == old(lost) + swapped && noted == old(noted)
    {
      swapped := 0;
      if !enabled {
        Drain();
        return;
      }
      if sec != lastSec {
        lastSec, quota, sinceReset := sec, rate, 0;
      }
      swapped := Flush();
    }

    /** `flush_all`, at shutdown: no quota, and SEND_DROPS is left alone. */
    method FlushAll()
      requires Valid()
      modifies this
      ensures Valid() && queue == [] && Thrown() == old(Thrown())
      ensures dropped == 0 && Noticed(old(out), out, old(dropped))
      ensures lost == old(lost) && noted == old(noted)
    {
      if dropped > 0 {
        out := Printed(out, Notice(dropped));
        dropped := 0;
      }
      var more := true;
      while more
        invariant Valid() && dropped == 0 && Noticed(old(out), out, old(dropped))
        invariant Thrown() == old(Thrown()) && (!more ==> queue == [])
        invariant lost == old(lost) && noted == old(noted)
        decreases |queue| + pushes, more
      {
        Interfere();
        more := Print();
      }
    }

    /**
     The law of the logger, at every moment at which no method of it is running: every accepted
     message was printed, thrown away, or is still queued; the drops reported or held cover all that
     was thrown away and never exceed it by more than was refused; and they say exactly how much was
     dropped iff no drop was swapped out without quota and none is yet to be swapped.
     */
    lemma Accounts()
      requires Valid()
      ensures accepted == All(past) + queue && Texts(out) == Chosen(past, Emitted)
      ensures |accepted| == |Texts(out)| + Thrown() + |queue|
      ensures sinceReset <= rate
      ensures enabled ==> Thrown() <= Reported(out) + dropped <= Thrown() + refused
      ensures enabled ==>
                (Reported(out) + dropped == Thrown() + refused <==> lost == 0 && sendDrops == 0 && counting == 0)
    {
      FatesPartition(past);
    }
  }
}
