/**
 Runs of the event loop, seen from outside: the server at successive moments, what was done between
 them, and what no run ever undoes.
 */
module History {
  import opened Wrappers
  import opened Tokens
  import opened Pumping
  import opened Connection
  import opened Generations
  import opened UdpTables
  import opened EventLoop

  /** What the server has: the connections, what remains of former ones, and the associations. */
  datatype World = World(
    live: map<Conn, Status>,
    graves: map<nat, Grave>,
    held: Held,                               // the number of the connection in every slot
    udp: map<UdpTables.Client, Assoc>,
    slots: seq<Option<Assoc>>)

  datatype Moment = Moment(world: World, k: Answers)

  datatype Deed = Served(report: Report, now: nat, touch: Option<Touch>) | Cleaned(now: nat)

  ghost predicate GravesKept(s: World, t: World) {
    forall n :: n in s.graves ==> n in t.graves && t.graves[n] == s.graves[n]
  }

  /** Every client that can be given a connection has one, and nobody else notices. */
  ghost predicate Accepted(s: World, t: World, clients: seq<EventLoop.Client>, now: nat) {
    && t.udp == s.udp && t.slots == s.slots && GravesKept(s, t)
    && Grown(s.live, t.live, HowMany(clients, Joins)) && Newcomers(s.live, t.live, clients, now)
  }

  /** The associations once that of slot `i`, if any, is stamped. */
  function Stamp(w: World, i: nat, now: nat): map<UdpTables.Client, Assoc>
    requires i < |w.slots|
  {
    match w.slots[i]
    case None => w.udp
    case Some(a) => w.udp[ClientOf(a.addr) := a.(lastAct := now)]
  }

  /** An event of a connection: only the one that its token reaches has changed, and it lives on or is buried. */
  ghost predicate Heeded(s: Moment, t: Moment, ev: Event, now: nat, touch: Option<Touch>) {
    match touch
    case None => Lookup(s.world.held, ev.token).None? && t == s
    case Some(Touch(c, out, left)) =>
      && Reaches(s.world.held, ev.token, c) && c in s.world.live
      && Heard(s.world.live[c], left, s.k, t.k, ev, now, out)
      && t.world.udp == s.world.udp && t.world.slots == s.world.slots
      && if out.Keep? then t.world == s.world.(live := s.world.live[c := left])
         else
           && t.world.live == s.world.live - {c}
           && t.world.graves == s.world.graves[c.id := GraveOf(c, left, Ended(out))]
  }

  /** One report handled: it concerns the party its token belongs to, and nobody else. */
  ghost predicate Handles(s: Moment, t: Moment, r: Report, now: nat, touch: Option<Touch>) {
    match Route(r.ev.token, |s.world.slots|)
    case Accept => touch == None && t.k == s.k && Accepted(s.world, t.world, r.clients, now)
    case UdpListen =>
      && touch == None && t.k == s.k
      && t.world == s.world.(udp := Received(s.world.udp, r.datagrams, now), slots := t.world.slots)
    case UdpUpstream(i) =>
      && touch == None && t.k == s.k
      && t.world == s.world.(udp := if r.answered then Stamp(s.world, i, now) else s.world.udp, slots := t.world.slots)
    case Tcp(_, _, _) => Heeded(s, t, r.ev, now, touch)
  }

  /** The cleanup: everything past a limit has gone, timed out, and nothing else. */
  ghost predicate Cleans(s: World, t: World, now: nat, limits: Timeouts) {
    && GravesKept(s, t)
    && t.live == WithinLimits(s.live, now, limits)
    && (forall c :: c in s.live && c !in t.live ==>
          c.id in t.graves && t.graves[c.id] == GraveOf(c, s.live[c], TimedOut))
    && t.udp == Recent(s.udp, now, limits.udp)
  }

  ghost predicate Follows(s: Moment, d: Deed, t: Moment, limits: Timeouts) {
    match d
    case Served(r, now, touch) => Handles(s, t, r, now, touch)
    case Cleaned(now) => t.k == s.k && Cleans(s.world, t.world, now, limits)
  }

  /** Nobody is both alive and buried. */
  ghost predicate Sane(w: World) {
    forall c :: c in w.live ==> c.id !in w.graves
  }

  /** A run: where it began, and each deed with the moment it led to. */
  datatype Trace = Start(now: Moment) | Then(past: Trace, deed: Deed, now: Moment)

  /** Each moment follows from the one before by what was done between them. */
  ghost predicate Legal(t: Trace, limits: Timeouts) {
    && Sane(t.now.world)
    && (t.Then? ==> Legal(t.past, limits) && Follows(t.past.now, t.deed, t.now, limits))
  }

  lemma Extended(past: Trace, deed: Deed, now: Moment, limits: Timeouts)
    requires Legal(past, limits) && Follows(past.now, deed, now, limits) && Sane(now.world)
    ensures Legal(Then(past, deed, now), limits)
  {
  }

  /** One more report has been handled. */
  predicate Adds(past: Trace, t: Trace, r: Report, now: nat) {
    t.Then? && t.past == past && t.deed.Served? && t.deed.report == r && t.deed.now == now
  }

  /** The reports that were handled, in order. */
  function ReportsIn(t: Trace): seq<Report> {
    match t
    case Start(_) => []
    case Then(past, deed, _) => ReportsIn(past) + (if deed.Served? then [deed.report] else [])
  }

  /** One run is the beginning of another. */
  predicate Begins(p: Trace, t: Trace) {
    p == t || (t.Then? && Begins(p, t.past))
  }

  lemma OneMoreReport(past: Trace, before: Trace, t: Trace, reports: seq<Report>, i: nat, now: nat)
    requires i < |reports| && Adds(before, t, reports[i], now)
    requires Begins(past, before) && ReportsIn(before) == ReportsIn(past) + reports[..i]
    ensures Begins(past, t) && ReportsIn(t) == ReportsIn(past) + reports[..i + 1]
  {
    assert reports[..i + 1] == reports[..i] + [reports[i]];
  }

  lemma {:induction false} BeginsOn(p: Trace, m: Trace, t: Trace)
    requires Begins(p, m) && Begins(m, t)
    ensures Begins(p, t)
  {
    if m != t {
      BeginsOn(p, m, t.past);
    }
  }

  // ---- What no run undoes ----

  ghost predicate StatusAhead(s: Status, t: Status) {
    Ahead(s.l2r, t.l2r) && Ahead(s.r2l, t.r2l) && (t.connecting ==> s.connecting)
  }

  /** A grave holds at least what had been delivered, and for a direction that was shut exactly that. */
  predicate GraveAhead(s: Status, g: Grave) {
    && s.l2r.sent <= g.sentL && (s.l2r.shut ==> g.sentL == s.l2r.sent)
    && s.r2l.sent <= g.sentR && (s.r2l.shut ==> g.sentR == s.r2l.sent)
  }

  /** A connection is where it was or further on, or in a grave it will not leave. */
  ghost predicate Persists(s: World, t: World) {
    && GravesKept(s, t)
    && (forall c :: c in s.live ==>
          if c in t.live then StatusAhead(s.live[c], t.live[c])
          else c.id in t.graves && GraveAhead(s.live[c], t.graves[c.id]))
  }

  lemma HeardAhead(s: Status, t: Status, k: Answers, k': Answers, ev: Event, now: nat, out: Outcome)
    requires Heard(s, t, k, k', ev, now, out)
    ensures StatusAhead(s, t)
  {
  }

  lemma FollowsPersists(s: Moment, d: Deed, t: Moment, limits: Timeouts)
    requires Follows(s, d, t, limits) && Sane(s.world)
    ensures Persists(s.world, t.world)
  {
    if d.Served? && d.touch.Some? {
      var Touch(c, out, left) := d.touch.value;
      HeardAhead(s.world.live[c], left, s.k, t.k, d.report.ev, d.now, out);
    }
  }

  lemma PersistsOn(s: World, m: World, t: World)
    requires Persists(s, m) && Persists(m, t) && Sane(t)
    ensures Persists(s, t)
  {
    forall c | c in s.live
      ensures if c in t.live then StatusAhead(s.live[c], t.live[c])
              else c.id in t.graves && GraveAhead(s.live[c], t.graves[c.id])
    {
      if c in m.live {
        assert StatusAhead(s.live[c], m.live[c]);
      }
    }
  }

  /** Over any stretch of any run. */
  lemma {:induction false} TracePersists(p: Trace, t: Trace, limits: Timeouts)
    requires Legal(t, limits) && Begins(p, t)
    ensures Persists(p.now.world, t.now.world)
  {
    if p != t {
      TracePersists(p, t.past, limits);
      FollowsPersists(t.past.now, t.deed, t.now, limits);
      PersistsOn(p.now.world, t.past.now.world, t.now.world);
    }
  }
}
