/**
 The server: connections and associations together, the dispatch of events by their tokens, and the
 event loop itself.  Every method that acts extends the trace of what has been done, and its contract
 is that the trace stays legal.
 */
module Servers {
  import opened Wrappers
  import opened Tokens
  import opened Pumping
  import opened Connection
  import opened Generations
  import opened UdpTables
  import opened EventLoop
  import opened History

  class Server {
    const relay: Relay
    const udp: UdpTable
    var lastCleanup: nat   // milliseconds

    ghost predicate Valid()
      reads relay, relay.repr, udp
    {
      relay.Valid() && udp.Valid() && this !in relay.repr && udp !in relay.repr
    }

    constructor (chunk: nat, limits: Timeouts)
      requires chunk > 0
      ensures Valid() && relay.limits == limits && relay.table.issued == [] && udp.model == map[]
    {
      relay := new Relay(chunk, limits);
      udp := new UdpTable();
      lastCleanup := 0;
    }

    /**
     A connection receives its own events for as long as it lives, from whatever slot and however many
     others have been accepted since, provided that no more than 2^25 connections were ever alive at
     once and the UDP slots leave the upper 16 bits of the token space alone.  Once it is gone they
     reach nobody until 65536 more have been accepted.
     */
    lemma OwnEvents(n: nat, side: nat)
      requires Valid() && n < |relay.table.issued| && side < 2
      requires relay.table.slab.peak * 2 <= UDP_BASE && |udp.slots| <= GEN_SHIFT - UDP_BASE
      ensures var idx := relay.table.issued[n];
              var token := Encode(n % GENERATIONS, idx, side);
              var who := relay.Addressee(token);
              && Route(token, |udp.slots|) == Tcp(n % GENERATIONS, idx, side == 1)
              && (n !in relay.graves ==> who.Some? && who.value in relay.table.members && who.value.id == n)
              && (n in relay.graves && |relay.table.issued| <= n + GENERATIONS ==> who == None)
    {
      TcpTokenRouted(n % GENERATIONS, relay.table.issued[n], side, |udp.slots|);
      relay.StaleEvent(n, side);
    }

    /** The server as it is, `live` being a picture of its connections. */
    ghost function Now(live: map<Conn, Status>): World
      reads relay, relay.table, udp
    {
      World(live, relay.graves, relay.table.held, udp.model, udp.slots)
    }

    /** The trace is legal, and ends with the server as it is. */
    ghost predicate Stands(t: Trace, k: Kernel)
      requires Valid()
      reads relay, relay.repr, udp, k
    {
      && Legal(t, relay.limits) && relay.Pictured(t.now.world.live)
      && t.now == Moment(Now(t.now.world.live), k.Count())
    }

    /** What a run may begin with. */
    ghost method Beginning(k: Kernel) returns (trace: Trace)
      requires Valid()
      ensures Stands(trace, k) && trace.Start?
    {
      var live := relay.Live();
      trace := Start(Moment(Now(live), k.Count()));
      NowSane(live);
    }

    lemma NowSane(live: map<Conn, Status>)
      requires Valid() && relay.Pictured(live)
      ensures Sane(Now(live))
    {
      forall c | c in live
        ensures c.id !in relay.graves
      {
        relay.NotBuried(c);
      }
    }

    /** One event, routed by its token to the party it belongs to, and to nobody else. */
    method Dispatch(k: Kernel, r: Report, now: nat, ghost past: Trace) returns (ghost trace: Trace)
      requires Valid() && Stands(past, k) && forall i :: 0 <= i < |r.clients| ==> r.clients[i].cap > 0
      modifies k, udp, relay.repr
      ensures Valid() && relay.Onward() && Stands(trace, k) && Adds(past, trace, r, now)
    {
      match Route(r.ev.token, |udp.slots|)
      case Accept => trace := OnAccept(k, r, now, past);
      case UdpListen => trace := OnDatagrams(k, r, now, past);
      case UdpUpstream(slot) => trace := OnAnswer(k, slot, r, now, past);
      case Tcp(_, _, _) => trace := OnTcpEvent(k, r, now, past);
    }

    method OnAccept(k: Kernel, r: Report, now: nat, ghost past: Trace) returns (ghost trace: Trace)
      requires Valid() && Stands(past, k) && forall i :: 0 <= i < |r.clients| ==> r.clients[i].cap > 0
      requires Route(r.ev.token, |udp.slots|).Accept?
      modifies relay`graves, relay`repr, relay.table, relay.table.slab
      ensures Valid() && relay.Onward() && Stands(trace, k) && Adds(past, trace, r, now)
    {
      ghost var live := relay.AdmitAll(r.clients, now, past.now.world.live);
      NowSane(live);
      ghost var m := Moment(Now(live), k.Count());
      Extended(past, Served(r, now, None), m, relay.limits);
      trace := Then(past, Served(r, now, None), m);
    }

    /** Datagrams from clients. */
    method OnDatagrams(k: Kernel, r: Report, now: nat, ghost past: Trace) returns (ghost trace: Trace)
      requires Valid() && Stands(past, k) && Route(r.ev.token, |udp.slots|).UdpListen?
      modifies udp
      ensures Valid() && relay.Onward() && Stands(trace, k) && Adds(past, trace, r, now)
    {
      udp.ReceiveAll(r.datagrams, now);
      ghost var m := Moment(Now(past.now.world.live), k.Count());
      Extended(past, Served(r, now, None), m, relay.limits);
      trace := Then(past, Served(r, now, None), m);
    }

    /** An answer through the upstream socket of a slot. */
    method OnAnswer(k: Kernel, slot: nat, r: Report, now: nat, ghost past: Trace) returns (ghost trace: Trace)
      requires Valid() && Stands(past, k) && Route(r.ev.token, |udp.slots|) == UdpUpstream(slot)
      modifies udp
      ensures Valid() && relay.Onward() && Stands(trace, k) && Adds(past, trace, r, now)
    {
      if r.answered {
        udp.Answered(slot, now);
      }
      ghost var m := Moment(Now(past.now.world.live), k.Count());
      Extended(past, Served(r, now, None), m, relay.limits);
      trace := Then(past, Served(r, now, None), m);
    }

    method OnTcpEvent(k: Kernel, r: Report, now: nat, ghost past: Trace) returns (ghost trace: Trace)
      requires Valid() && Stands(past, k) && Route(r.ev.token, |udp.slots|).Tcp?
      modifies k, relay.repr
      ensures Valid() && relay.Onward() && Stands(trace, k) && Adds(past, trace, r, now)
    {
      ghost var touch, live := relay.HeedEvent(k, r.ev, now, past.now.world.live);
      NowSane(live);
      ghost var m := Moment(Now(live), k.Count());
      Extended(past, Served(r, now, touch), m, relay.limits);
      trace := Then(past, Served(r, now, touch), m);
    }

    /** One turn of the event loop: the reports of one `epoll_wait`, each once and in order, then the 1 Hz cleanup. */
    method Turn(k: Kernel, now: nat, reports: seq<Report>, ghost past: Trace) returns (ghost trace: Trace)
      requires Valid() && Stands(past, k) && Capable(reports)
      modifies k, this, udp, relay.repr
      ensures Valid() && relay.Onward() && Stands(trace, k) && Begins(past, trace)
      ensures ReportsIn(trace) == ReportsIn(past) + reports
      ensures if SatSub(now, old(lastCleanup)) > 1000
              then lastCleanup == now && trace.Then? && trace.deed == Cleaned(now)
              else lastCleanup == old(lastCleanup)
    {
      trace := past;
      for i := 0 to |reports|
        invariant Valid() && relay.Onward() && lastCleanup == old(lastCleanup)
        invariant Stands(trace, k) && Begins(past, trace) && ReportsIn(trace) == ReportsIn(past) + reports[..i]
      {
        trace := TurnStep(k, now, reports, i, past, trace);
      }
      ghost var before := trace;
      trace := Housekeep(k, now, before);
      assert reports[..|reports|] == reports;
      BeginsOn(past, before, trace);
    }

    method TurnStep(k: Kernel, now: nat, reports: seq<Report>, i: nat, ghost past: Trace, ghost before: Trace)
      returns (ghost trace: Trace)
      requires Valid() && Stands(before, k) && Capable(reports) && i < |reports|
      requires Begins(past, before) && ReportsIn(before) == ReportsIn(past) + reports[..i]
      modifies k, udp, relay.repr
      ensures Valid() && relay.Onward() && Stands(trace, k)
      ensures Begins(past, trace) && ReportsIn(trace) == ReportsIn(past) + reports[..i + 1]
    {
      trace := Dispatch(k, reports[i], now, before);
      OneMoreReport(past, before, trace, reports, i, now);
    }

    /** The 1 Hz cleanup of both sides. */
    method Housekeep(k: Kernel, now: nat, ghost past: Trace) returns (ghost trace: Trace)
      requires Valid() && Stands(past, k)
      modifies this`lastCleanup, udp, relay`graves, relay.table, relay.table.slab
      ensures Valid() && relay.Onward() && Stands(trace, k)
      ensures Begins(past, trace) && ReportsIn(trace) == ReportsIn(past)
      ensures if SatSub(now, old(lastCleanup)) > 1000
              then lastCleanup == now && trace.Then? && trace.past == past && trace.deed == Cleaned(now)
              else lastCleanup == old(lastCleanup) && trace == past
    {
      trace := past;
      if SatSub(now, lastCleanup) > 1000 {
        lastCleanup := now;
        trace := Tidy(k, now, past);
      }
    }

    method Tidy(k: Kernel, now: nat, ghost past: Trace) returns (ghost trace: Trace)
      requires Valid() && Stands(past, k)
      modifies udp, relay`graves, relay.table, relay.table.slab
      ensures Valid() && relay.Onward() && Stands(trace, k)
      ensures trace.Then? && trace.past == past && trace.deed == Cleaned(now)
    {
      ghost var live := relay.CleanUp(now, past.now.world.live);
      NowSane(live);
      ExpireUdp(now, live);
      ghost var m := Moment(Now(live), k.Count());
      Extended(past, Cleaned(now), m, relay.limits);
      trace := Then(past, Cleaned(now), m);
    }

    method ExpireUdp(now: nat, ghost live: map<Conn, Status>)
      requires Valid() && relay.Pictured(live)
      modifies udp
      ensures Valid() && relay.Pictured(live)
      ensures Now(live) == old(Now(live)).(udp := Recent(old(udp.model), now, relay.limits.udp), slots := udp.slots)
    {
      udp.Expire(now, relay.limits.udp);
    }

    /**
     Any run of the loop, up to shutdown: every report is handled once and in order, and what has been
     delivered, shut or buried stays so.
     */
    method Run(k: Kernel, turns: seq<(nat, seq<Report>)>, ghost past: Trace) returns (ghost trace: Trace)
      requires Valid() && Stands(past, k) && forall i :: 0 <= i < |turns| ==> Capable(turns[i].1)
      modifies k, this, udp, relay.repr
      ensures Valid() && relay.Onward() && Stands(trace, k) && Begins(past, trace)
      ensures ReportsIn(trace) == ReportsIn(past) + AllReports(turns)
      ensures Persists(past.now.world, trace.now.world)
    {
      trace := past;
      for i := 0 to |turns|
        invariant Valid() && relay.Onward() && Stands(trace, k) && Begins(past, trace)
        invariant ReportsIn(trace) == ReportsIn(past) + AllReports(turns[..i])
      {
        trace := RunStep(k, turns, i, past, trace);
      }
      assert turns[..|turns|] == turns;
      TracePersists(past, trace, relay.limits);
    }

    method RunStep(k: Kernel, turns: seq<(nat, seq<Report>)>, i: nat, ghost past: Trace, ghost before: Trace)
      returns (ghost trace: Trace)
      requires Valid() && Stands(before, k) && i < |turns| && Capable(turns[i].1)
      requires Begins(past, before) && ReportsIn(before) == ReportsIn(past) + AllReports(turns[..i])
      modifies k, this, udp, relay.repr
      ensures Valid() && relay.Onward() && Stands(trace, k)
      ensures Begins(past, trace) && ReportsIn(trace) == ReportsIn(past) + AllReports(turns[..i + 1])
    {
      trace := Turn(k, turns[i].0, turns[i].1, before);
      OneMoreTurn(past, before, trace, turns, i);
    }
  }

  /** Everything that `epoll_wait` reported, in order. */
  function AllReports(turns: seq<(nat, seq<Report>)>): seq<Report> {
    if turns == [] then [] else AllReports(turns[..|turns| - 1]) + turns[|turns| - 1].1
  }

  lemma OneMoreTurn(past: Trace, before: Trace, t: Trace, turns: seq<(nat, seq<Report>)>, i: nat)
    requires i < |turns| && Begins(before, t) && ReportsIn(t) == ReportsIn(before) + turns[i].1
    requires Begins(past, before) && ReportsIn(before) == ReportsIn(past) + AllReports(turns[..i])
    ensures Begins(past, t) && ReportsIn(t) == ReportsIn(past) + AllReports(turns[..i + 1])
  {
    BeginsOn(past, before, t);
    assert turns[..i + 1][..i] == turns[..i];
  }

  /** Every pipe can hold at least one byte. */
  predicate Capable(reports: seq<Report>) {
    forall i, j :: 0 <= i < |reports| && 0 <= j < |reports[i].clients| ==> reports[i].clients[j].cap > 0
  }
}
