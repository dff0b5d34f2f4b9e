/**
 The event loop of relay-rs/src/main.rs: accepting, dispatching events by token, and the 1 Hz
 cleanup, over the table of connections and the table of UDP associations.
 */
module EventLoop {
  import opened Wrappers
  import opened Tokens
  import opened Pumping
  import opened Connection
  import opened Slabs
  import opened Generations
  import opened ConnTables
  import opened UdpTables

  /** Why a connection left the slab. */
  datatype Reason = NotRegistered | Ended(out: Outcome) | TimedOut

  /** What remains of a connection: its two streams, and what was delivered of each. */
  datatype Grave = Grave(why: Reason, streamL: seq<Byte>, sentL: seq<Byte>, streamR: seq<Byte>, sentR: seq<Byte>)

  ghost function Remains(c: Conn, why: Reason): Grave
    reads c.l2r, c.r2l
  {
    Grave(why, c.l2r.stream, c.l2r.sent, c.r2l.stream, c.r2l.sent)
  }

  /** Each side received a prefix of what the other sent, and all of it after a full close. */
  ghost predicate Truthful(g: Grave) {
    && g.sentL <= g.streamL && g.sentR <= g.streamR
    && (g.why == Ended(FullyClosed) ==> g.sentL == g.streamL && g.sentR == g.streamR)
  }

  /** Every connection ever built is in its slot or in its grave, never in both. */
  ghost predicate Accounted(held: Held, issued: seq<nat>, graves: map<nat, Grave>) {
    && (forall n :: 0 <= n < |issued| ==> issued[n] < |held|)
    && (forall n :: n in graves ==> 0 <= n < |issued| && Truthful(graves[n]))
    && (forall n {:trigger n in graves} :: 0 <= n < |issued| ==> (n in graves <==> held[issued[n]] != Some(n)))
  }

  lemma AccountedAfterPlace(held: Held, issued: seq<nat>, graves: map<nat, Grave>, i: nat)
    requires Accounted(held, issued, graves) && i <= |held| && (i < |held| ==> held[i].None?)
    ensures Accounted(Place(held, i, |issued|), issued + [i], graves)
  {
    var held', issued' := Place(held, i, |issued|), issued + [i];
    forall n | 0 <= n < |issued'|
      ensures n in graves <==> held'[issued'[n]] != Some(n)
    {
      if n < |issued| {
        assert n in graves <==> held[issued[n]] != Some(n);
      }
    }
  }

  lemma AccountedAfterClear(held: Held, issued: seq<nat>, graves: map<nat, Grave>, i: nat, g: Grave)
    requires Accounted(held, issued, graves) && Recorded(held, issued) && Truthful(g)
    requires i < |held| && held[i].Some?
    ensures Accounted(held[i := None], issued, graves[held[i].value := g])
  {
    var n0, held', graves' := held[i].value, held[i := None], graves[held[i].value := g];
    forall n | 0 <= n < |issued|
      ensures n in graves' <==> held'[issued[n]] != Some(n)
    {
      assert n in graves <==> held[issued[n]] != Some(n);
    }
  }

  /** What there is to relay to: nothing, a connected socket (pooled or direct), or one in progress. */
  datatype Remote = NoRemote | Connected | Connecting

  /** One report of `epoll_wait`, with the answers of the calls its handling makes. */
  datatype Event = Event(token: nat, flags: set<Flag>, connected: bool, okL: bool, okR: bool)

  /** What the event does to the connection it reaches. */
  predicate Heard(s: Status, t: Status, k: Answers, k': Answers, ev: Event, now: nat, out: Outcome) {
    Handled(s, t, k, k', ev.flags, Decode(ev.token).2, ev.connected, now, ev.okL, ev.okR, out)
  }

  /** The connection that an event reached, how that came out, and how it was left. */
  datatype Touch = Touch(conn: Conn, out: Outcome, left: Status)

  /** The clocks of a connection start at `now`, and nothing has moved. */
  ghost predicate SetUp(c: Conn, now: nat)
    reads c, c.l2r, c.r2l
  {
    && c.connectStart == c.lastL2R == c.lastR2L == now && c.halfCloseSince == None
    && c.l2r.unread == c.l2r.stream && c.l2r.pipe == c.l2r.sent == [] && c.l2r.finAt == []
    && c.r2l.unread == c.r2l.stream && c.r2l.pipe == c.r2l.sent == [] && c.r2l.finAt == []
    && !c.eofL2R && !c.eofR2L
  }

  /** The connection of an accepted client, as it enters the slab. */
  ghost predicate Begun(c: Conn, client: Client, now: nat)
    reads c, c.l2r, c.r2l
  {
    && c.l2r.stream == client.streamL && c.r2l.stream == client.streamR && SetUp(c, now)
    && c.connecting == (client.remote.Connecting? && client.ready.None?)
  }

  /** Two connections share no pipe and no socket. */
  ghost predicate Apart(a: Conn, b: Conn) {
    a.l2r != b.l2r && a.l2r != b.r2l && a.r2l != b.l2r && a.r2l != b.r2l
  }

  datatype Timeouts = Timeouts(connect: nat, idle: nat, halfClose: nat, udp: nat)

  /** The limits of the cleanup pass. */
  predicate Overdue(connecting: bool, start: nat, lastL2R: nat, lastR2L: nat, halfClose: Option<nat>,
                    now: nat, limits: Timeouts) {
    if connecting then SatSub(now, start) > limits.connect
    else
      || SatSub(now, if lastL2R >= lastR2L then lastL2R else lastR2L) > limits.idle
      || (halfClose.Some? && SatSub(now, halfClose.value) > limits.halfClose)
  }

  predicate Expired(c: Conn, now: nat, limits: Timeouts)
    reads c
  {
    Overdue(c.connecting, c.connectStart, c.lastL2R, c.lastR2L, c.halfCloseSince, now, limits)
  }

  predicate PastLimit(c: Conn, s: Status, now: nat, limits: Timeouts) {
    Overdue(s.connecting, c.connectStart, s.l2r.last, s.r2l.last, s.halfClose, now, limits)
  }

  /** The grave of a connection whose last state is `s`. */
  function GraveOf(c: Conn, s: Status, why: Reason): Grave {
    Grave(why, c.l2r.stream, s.l2r.sent, c.r2l.stream, s.r2l.sent)
  }

  /**
   A client waiting to be accepted, and how setting up its connection goes.  `ready` is what `poll`
   and SO_ERROR say right after registration of a connection still in progress: nothing yet,
   connected, or failed.
   */
  datatype Client = Client(streamL: seq<Byte>, streamR: seq<Byte>, cap: nat, remote: Remote, pipes: bool,
                           added: bool, ready: Option<bool>, okL: bool, okR: bool)

  /** There is something to relay to, and there are pipes to do it with. */
  predicate Built(client: Client) {
    !client.remote.NoRemote? && client.pipes
  }

  /** Both sockets are registered, and the connect has not failed at once. */
  predicate Joins(client: Client) {
    Built(client) && client.added && !(client.remote.Connecting? && client.ready == Some(false))
  }

  function HowMany(clients: seq<Client>, which: Client -> bool): nat {
    if clients == [] then 0
    else HowMany(clients[..|clients| - 1], which) + (if which(clients[|clients| - 1]) then 1 else 0)
  }

  lemma HowManyNext(clients: seq<Client>, i: nat, which: Client -> bool)
    requires i < |clients|
    ensures HowMany(clients[..i + 1], which) == HowMany(clients[..i], which) + (if which(clients[i]) then 1 else 0)
  {
    assert clients[..i + 1][..i] == clients[..i];
  }

  /** A report of `epoll_wait` together with what the sockets it is about have to offer. */
  datatype Report = Report(ev: Event, clients: seq<Client>, datagrams: seq<Datagram>, answered: bool)

  function WithinLimits(live: map<Conn, Status>, now: nat, limits: Timeouts): map<Conn, Status> {
    map c | c in live && !PastLimit(c, live[c], now, limits) :: live[c]
  }

  /** The slot that an event with this token is delivered to holds connection `c`. */
  ghost predicate Reaches(held: Held, token: nat, c: Conn) {
    var found := Lookup(held, token);
    found.Some? && found.value < |held| && held[found.value] == Some(c.id)
  }

  /** A connection that has just been set up for a client: its clocks start, and nothing has moved. */
  predicate Fits(c: Conn, s: Status, client: Client, now: nat) {
    && c.connectStart == s.l2r.last == s.r2l.last == now && s.halfClose == None
    && s.connecting == (client.remote.Connecting? && client.ready.None?)
    && c.l2r.stream == client.streamL == s.l2r.unread && s.l2r.pipe == s.l2r.sent == []
    && c.r2l.stream == client.streamR == s.r2l.unread && s.r2l.pipe == s.r2l.sent == []
    && !s.l2r.eof && !s.r2l.eof && s.l2r.fins == s.r2l.fins == []
  }

  /** Every connection that was not there before has been set up for a client that can be given one. */
  ghost predicate Newcomers(live: map<Conn, Status>, live': map<Conn, Status>, clients: seq<Client>, now: nat) {
    forall c :: c in live' && c !in live ==>
      exists i :: 0 <= i < |clients| && Joins(clients[i]) && Fits(c, live'[c], clients[i], now)
  }

  lemma NewcomersOn(s: map<Conn, Status>, m: map<Conn, Status>, t: map<Conn, Status>,
                    clients: seq<Client>, i: nat, now: nat)
    requires i < |clients| && Newcomers(s, m, clients[..i], now) && (forall c :: c in m ==> c in t && t[c] == m[c])
    requires forall c :: c in t && c !in m ==> Joins(clients[i]) && Fits(c, t[c], clients[i], now)
    ensures Newcomers(s, t, clients[..i + 1], now)
  {
    var before, after := clients[..i], clients[..i + 1];
    forall c | c in t && c !in s
      ensures exists j :: 0 <= j < |after| && Joins(after[j]) && Fits(c, t[c], after[j], now)
    {
      if c in m {
        var j :| 0 <= j < |before| && Joins(before[j]) && Fits(c, m[c], before[j], now);
        assert after[j] == before[j];
      } else {
        assert after[i] == clients[i];
      }
    }
  }

  /** The limits, spelled out: what has to be over, and for how long. */
  lemma LimitsMean(c: Conn, s: Status, now: nat, limits: Timeouts)
    ensures PastLimit(c, s, now, limits) <==>
            if s.connecting then now > c.connectStart + limits.connect
            else
              || (now > s.l2r.last + limits.idle && now > s.r2l.last + limits.idle)
              || (s.halfClose.Some? && now > s.halfClose.value + limits.halfClose)
  {
  }

  /** A connection that has just been set up is past a limit once, with nothing happening, that limit has run out. */
  lemma GraceExact(c: Conn, s: Status, client: Client, now: nat, later: nat, limits: Timeouts)
    requires Fits(c, s, client, now)
    ensures PastLimit(c, s, later, limits) <==>
            later > now + (if client.remote.Connecting? && client.ready.None? then limits.connect else limits.idle)
  {
    LimitsMean(c, s, later, limits);
  }

  /**
   A connection that is being relayed and has just moved a byte is past a limit only by its half-close
   clock, and one that has just half-closed only after that limit has run out.
   */
  lemma MovingStays(c: Conn, s: Status, t: Status, k: Answers, k': Answers, now: nat, okL: bool, okR: bool, later: nat,
                    limits: Timeouts)
    requires Relayed(s, t, k, k', now, okL, okR, Keep) && !t.connecting && later <= now + limits.idle
    requires t.l2r.Work() < s.l2r.Work() || t.r2l.Work() < s.r2l.Work()
    ensures PastLimit(c, t, later, limits) ==> t.l2r.eof != t.r2l.eof
    ensures s.l2r.eof == s.r2l.eof && t.l2r.eof != t.r2l.eof ==>
              (PastLimit(c, t, later, limits) <==> later > now + limits.halfClose)
  {
    LimitsMean(c, t, later, limits);
  }

  /** So many connections have come, and those that were there are as they were. */
  ghost predicate Grown(live: map<Conn, Status>, live': map<Conn, Status>, n: nat) {
    |live'.Keys| == |live.Keys| + n && forall c :: c in live ==> c in live' && live'[c] == live[c]
  }

  lemma GrownOn(s: map<Conn, Status>, m: map<Conn, Status>, t: map<Conn, Status>, i: nat, j: nat)
    requires Grown(s, m, i) && Grown(m, t, j)
    ensures Grown(s, t, i + j)
  {
  }

  class Relay {
    const chunk: nat
    const limits: Timeouts
    const table: ConnTable
    ghost var graves: map<nat, Grave>
    ghost var repr: set<object>   // everything the relay is made of

    ghost predicate Sealed(c: Conn)
      reads c, c.l2r, c.r2l
    {
      c.Valid(chunk) && c.l2r.owner == c.id && c.r2l.owner == c.id
    }

    ghost predicate Owned()
      reads this, repr
    {
      && this in repr && table in repr && table.slab in repr
      && forall c :: c in table.members ==> c in repr && c.l2r in repr && c.r2l in repr
    }

    ghost predicate Valid()
      reads this, repr
    {
      && chunk > 0 && Owned() && table.Valid()
      && Accounted(table.held, table.issued, graves)
      && (forall c :: c in table.members ==> Sealed(c))
    }

    constructor (chunk: nat, limits: Timeouts)
      requires chunk > 0
      ensures Valid() && this.chunk == chunk && this.limits == limits
      ensures table.issued == [] && graves == map[] && fresh(repr)
    {
      this.chunk, this.limits := chunk, limits;
      var t := new ConnTable();
      table, graves, repr := t, map[], {this, t, t.slab};
    }

    /** As `Valid`, except that nothing is known of `c`. */
    ghost predicate ValidBut(c: Conn)
      reads this, repr
    {
      && chunk > 0 && Owned() && table.Valid()
      && Accounted(table.held, table.issued, graves)
      && (forall d :: d in table.members && d != c ==> Sealed(d))
    }

    /** The history only grows, and every connection that is not new was there before. */
    twostate predicate Onward()
      reads this, table
    {
      Buried() && old(table.issued) <= table.issued && fresh(repr - old(repr))
    }

    /** Graves are final. */
    twostate predicate Buried()
      reads this
    {
      forall n :: n in old(graves) ==> n in graves && graves[n] == old(graves)[n]
    }

    /** `free_slot`: the connection leaves its slot for its grave. */
    method Bury(idx: nat, why: Reason)
      requires idx < |table.slab.slots| && table.slab.slots[idx].Some?
      requires var c := table.slab.slots[idx].value;
               ValidBut(c) && c.l2r.Sound() && c.r2l.Sound() && (why == Ended(FullyClosed) ==> c.Now(chunk).Whole())
      modifies `graves, table, table.slab
      ensures Valid() && table.issued == old(table.issued) && table.held == old(table.held)[idx := None]
      ensures table.slab.slots == old(table.slab.slots)[idx := None]
      ensures var c := old(table.slab.slots)[idx].value;
              && table.members == old(table.members) - {c}
              && graves == old(graves)[c.id := Remains(c, why)]
      ensures Buried()
    {
      ghost var c := table.slab.slots[idx].value;
      ghost var g := Remains(c, why);
      AccountedAfterClear(table.held, table.issued, graves, idx, g);
      graves := graves[c.id := g];
      table.Clear(idx);
      forall d | d in table.members
        ensures Sealed(d)
      {
        assert old(Sealed(d));
      }
    }

    /** The members other than `c` do not see what happens to `c` and its wires. */
    lemma Disjoint(c: Conn, d: Conn)
      requires Valid() && c in table.members && d in table.members && c != d
      ensures Apart(c, d)
    {
      table.NumbersDiffer(c, d);
    }

    /** Build a connection and put it into the slab. */
    method Build(streamL: seq<Byte>, streamR: seq<Byte>, cap: nat, connecting: bool, now: nat) returns (idx: nat)
      requires Valid() && cap > 0
      modifies `repr, table, table.slab
      ensures Valid() && table.issued == old(table.issued) + [idx]
      ensures idx < |table.held| && table.held[idx] == Some(|old(table.issued)|) && table.slab.slots[idx].Some?
      ensures var c := table.slab.slots[idx].value;
              && fresh(c) && repr == old(repr) + {c, c.l2r, c.r2l} && fresh(repr - old(repr))
              && c.l2r.stream == streamL && c.r2l.stream == streamR && SetUp(c, now)
              && c.connecting == connecting && table.members == old(table.members) + {c} && c !in old(table.members)
    {
      var conn := NewConn(streamL, streamR, cap, connecting, now);
      idx := Store(conn);
    }

    method NewConn(streamL: seq<Byte>, streamR: seq<Byte>, cap: nat, connecting: bool, now: nat) returns (conn: Conn)
      requires chunk > 0 && cap > 0
      ensures fresh(conn) && fresh(conn.l2r) && fresh(conn.r2l) && Sealed(conn) && conn.connecting == connecting
      ensures conn.l2r.stream == streamL && conn.r2l.stream == streamR && SetUp(conn, now)
      ensures conn.id == |table.issued| && conn.gen == table.slabGen
    {
      var l2r := new Wire(streamL, cap, |table.issued|);
      var r2l := new Wire(streamR, cap, |table.issued|);
      conn := new Conn(table.slabGen, |table.issued|, l2r, r2l, connecting, now, chunk);
    }

    method Store(conn: Conn) returns (idx: nat)
      requires Valid() && conn.id == |table.issued| && conn.gen == table.slabGen && Sealed(conn)
      modifies `repr, table, table.slab
      ensures Valid() && table.issued == old(table.issued) + [idx] && repr == old(repr) + {conn, conn.l2r, conn.r2l}
      ensures idx < |table.held| && table.held[idx] == Some(conn.id)
      ensures table.slab.slots[idx] == Some(conn) && table.members == old(table.members) + {conn}
    {
      ghost var held, issued := table.held, table.issued;
      idx := table.Insert(conn);
      AccountedAfterPlace(held, issued, graves, idx);
      repr := repr + {conn, conn.l2r, conn.r2l};
      forall d | d in table.members
        ensures Sealed(d)
      {
        assert old(Sealed(d));
      }
    }

    /** The connect has completed: arm the sockets for relaying. */
    method Connected(idx: nat, okL: bool, okR: bool, ghost now: nat)
      requires Valid() && idx < |table.held| && table.held[idx].Some? && SetUp(table.slab.slots[idx].value, now)
      modifies table.slab.slots[idx].value
      ensures Valid() && !table.slab.slots[idx].value.connecting && SetUp(table.slab.slots[idx].value, now)
    {
      var conn := table.slab.slots[idx].value;
      conn.connecting := false;
      conn.Watch(chunk, okL, okR);
      forall d | d in table.members && d != conn
        ensures Sealed(d)
      {
        assert old(Sealed(d));
      }
    }

    /** One accepted client. */
    method Admit(client: Client, now: nat) returns (slot: Option<nat>)
      requires Valid() && client.cap > 0
      modifies `graves, `repr, table, table.slab
      ensures Valid() && Onward()
      ensures |table.issued| == |old(table.issued)| + (if Built(client) then 1 else 0)
      ensures slot.Some? <==>
                && !client.remote.NoRemote? && client.pipes && client.added
                && (client.remote.Connecting? ==> client.ready != Some(false))
      ensures if slot.None? then table.members == old(table.members)
              else
                && slot.value < |table.held| && table.held[slot.value] == Some(|old(table.issued)|)
                && table.slab.slots[slot.value].Some?
                && var c := table.slab.slots[slot.value].value;
                   c !in old(table.members) && table.members == old(table.members) + {c} && Begun(c, client, now)
      ensures forall d :: d in old(table.members) ==> Untouched(d)
    {
      slot := None;
      if client.remote.NoRemote? || !client.pipes {
        return;
      }
      var idx, stays := Welcome(client, now);
      if stays {
        slot := Some(idx);
      }
    }

    /** One accepted client for which there is a remote socket and a pair of pipes. */
    method Welcome(client: Client, now: nat) returns (idx: nat, stays: bool)
      requires Valid() && client.cap > 0 && Built(client)
      modifies `graves, `repr, table, table.slab
      ensures Valid() && Onward() && table.issued == old(table.issued) + [idx] && stays == Joins(client)
      ensures if !stays then table.members == old(table.members)
              else
                && idx < |table.held| && table.held[idx] == Some(|old(table.issued)|)
                && table.slab.slots[idx].Some?
                && var c := table.slab.slots[idx].value;
                   c !in old(table.members) && table.members == old(table.members) + {c}
      ensures forall d :: d in old(table.members) ==> Untouched(d)
      ensures stays ==> Begun(table.slab.slots[idx].value, client, now)
    {
      idx := Build(client.streamL, client.streamR, client.cap, client.remote.Connecting?, now);
      stays := Register(idx, client, now);
    }

    /** The registration of a new connection, and a first look at its connect. */
    method Register(idx: nat, client: Client, ghost now: nat) returns (stays: bool)
      requires Valid() && idx < |table.held| && table.held[idx].Some? && table.slab.slots[idx].Some?
      requires Built(client) && table.slab.slots[idx].value.connecting == client.remote.Connecting?
      requires SetUp(table.slab.slots[idx].value, now)
      modifies `graves, table, table.slab, table.slab.slots[idx].value
      ensures Valid() && Buried() && table.issued == old(table.issued) && stays == Joins(client)
      ensures var c := old(table.slab.slots)[idx].value;
              if stays then
                && table.members == old(table.members) && table.held == old(table.held)
                && table.slab.slots == old(table.slab.slots)
                && c.connecting == (client.remote.Connecting? && client.ready.None?) && SetUp(c, now)
              else table.members == old(table.members) - {c}
    {
      stays := true;
      if !client.added {
        Bury(idx, NotRegistered);
        stays := false;
      } else if client.remote.Connecting? && client.ready.Some? {
        if client.ready.value {
          Connected(idx, client.okL, client.okR, now);
        } else {
          Bury(idx, Ended(ConnectFailed));
          stays := false;
        }
      }
    }

    /** `live` shows every connection as it is. */
    ghost predicate Pictured(live: map<Conn, Status>)
      requires Owned()
      reads this, repr
    {
      live.Keys == table.members && forall c :: c in live ==> live[c] == c.Now(chunk)
    }

    ghost function Live(): (live: map<Conn, Status>)
      requires Owned()
      reads this, repr
      ensures Pictured(live)
    {
      map c | c in table.members :: c.Now(chunk)
    }

    /** The picture of the connections after one accepted client. */
    method AdmitOne(client: Client, now: nat, ghost live: map<Conn, Status>) returns (ghost live': map<Conn, Status>)
      requires Valid() && Pictured(live) && client.cap > 0
      modifies `graves, `repr, table, table.slab
      ensures Valid() && Onward() && Pictured(live')
      ensures |table.issued| == |old(table.issued)| + (if Built(client) then 1 else 0)
      ensures Grown(live, live', if Joins(client) then 1 else 0)
      ensures forall c :: c in live' && c !in live ==> Joins(client) && Fits(c, live'[c], client, now)
    {
      var slot := Admit(client, now);
      live' := live;
      forall d | d in live
        ensures live[d] == d.Now(chunk)
      {
        assert Untouched(d);
      }
      if slot.Some? {
        ghost var c := table.slab.slots[slot.value].value;
        live' := live[c := c.Now(chunk)];
        OneMore(live, c);
      }
    }

    lemma OneMore(live: map<Conn, Status>, c: Conn)
      requires Owned() && c !in live && table.members == live.Keys + {c}
      requires forall d :: d in live ==> live[d] == d.Now(chunk)
      ensures var l := live[c := c.Now(chunk)]; Pictured(l) && Grown(live, l, 1)
    {
      assert live[c := c.Now(chunk)].Keys == live.Keys + {c};
    }

    /** The accept loop: one connection for every client that can be given one, and the others are left alone. */
    method AdmitAll(clients: seq<Client>, now: nat, ghost live: map<Conn, Status>)
      returns (ghost live': map<Conn, Status>)
      requires Valid() && Pictured(live) && forall i :: 0 <= i < |clients| ==> clients[i].cap > 0
      modifies `graves, `repr, table, table.slab
      ensures Valid() && Onward() && Pictured(live')
      ensures Grown(live, live', HowMany(clients, Joins)) && Newcomers(live, live', clients, now)
      ensures |table.issued| == |old(table.issued)| + HowMany(clients, Built)
    {
      live' := live;
      for i := 0 to |clients|
        invariant Valid() && Onward() && Pictured(live')
        invariant Grown(live, live', HowMany(clients[..i], Joins)) && Newcomers(live, live', clients[..i], now)
        invariant |table.issued| == |old(table.issued)| + HowMany(clients[..i], Built)
      {
        live' := AdmitNext(clients, i, now, live, live');
      }
      assert clients[..|clients|] == clients;
    }

    method AdmitNext(clients: seq<Client>, i: nat, now: nat,
                     ghost live: map<Conn, Status>, ghost before: map<Conn, Status>)
      returns (ghost live': map<Conn, Status>)
      requires Valid() && Pictured(before) && i < |clients| && clients[i].cap > 0
      requires Grown(live, before, HowMany(clients[..i], Joins)) && Newcomers(live, before, clients[..i], now)
      modifies `graves, `repr, table, table.slab
      ensures Valid() && Onward() && Pictured(live')
      ensures Grown(live, live', HowMany(clients[..i + 1], Joins)) && Newcomers(live, live', clients[..i + 1], now)
      ensures |table.issued| - |old(table.issued)| == HowMany(clients[..i + 1], Built) - HowMany(clients[..i], Built)
    {
      HowManyNext(clients, i, Built);
      HowManyNext(clients, i, Joins);
      live' := AdmitOne(clients[i], now, before);
      GrownOn(live, before, live', HowMany(clients[..i], Joins), if Joins(clients[i]) then 1 else 0);
      NewcomersOn(live, before, live', clients, i, now);
    }

    /** Hand an event to the connection in slot `idx`. */
    method Deliver(k: Kernel, idx: nat, ev: Event, now: nat) returns (out: Outcome)
      requires Valid() && idx < |table.slab.slots| && table.slab.slots[idx].Some?
      modifies k, table.slab.slots[idx].value
      modifies table.slab.slots[idx].value.l2r, table.slab.slots[idx].value.r2l
      ensures var c := table.slab.slots[idx].value;
              ValidBut(c) && c.l2r.Sound() && c.r2l.Sound() && (out.FullyClosed? ==> c.Now(chunk).Whole())
      ensures out.Keep? ==> Valid()
      ensures var c := table.slab.slots[idx].value;
              Heard(old(c.Now(chunk)), c.Now(chunk), old(k.Count()), k.Count(), ev, now, out)
      ensures var c := table.slab.slots[idx].value;
              forall d :: d in table.members && d != c ==> Untouched(d)
    {
      var c := table.slab.slots[idx].value;
      forall d | d in table.members && d != c
        ensures Apart(c, d)
      {
        Disjoint(c, d);
      }
      out := c.Handle(k, ev.flags, Decode(ev.token).2, ev.connected, chunk, now, ev.okL, ev.okR);
      forall d | d in table.members && d != c
        ensures Sealed(d)
      {
        assert old(Sealed(d));
      }
    }

    /** The connection that the token reaches. */
    ghost function Addressee(token: nat): Option<Conn>
      requires table.Valid()
      reads table, table.slab
    {
      var found := Lookup(table.held, token);
      if found.Some? then table.slab.slots[found.value] else None
    }

    lemma AddresseeReached(token: nat)
      requires table.Valid()
      ensures match Addressee(token)
              case None => Lookup(table.held, token) == None
              case Some(c) => Reaches(table.held, token, c)
    {
    }

    /** Every connection ever built is live, sound and reachable, or lies in a truthful grave; never both. */
    lemma EveryConnection(n: nat)
      requires Valid() && n < |table.issued|
      ensures n in graves ==> Truthful(graves[n]) && forall c :: c in table.members ==> c.id != n
      ensures n !in graves ==>
                && table.slab.slots[table.issued[n]].Some?
                && var c := table.slab.slots[table.issued[n]].value;
                   c in table.members && c.id == n && c.gen == n % GENERATIONS && c.Valid(chunk)
    {
    }

    /**
     A token reaches its own connection for as long as that lives, however many others have been built
     since; after that it reaches nobody until 65536 more have been built.
     */
    lemma StaleEvent(n: nat, side: nat)
      requires Valid() && n < |table.issued| && side < 2
      requires |table.slab.slots| <= IDX_LIMIT
      ensures var who := Addressee(Encode(n % GENERATIONS, table.issued[n], side));
              && (n !in graves ==> who.Some? && who.value in table.members && who.value.id == n)
              && (n in graves && |table.issued| <= n + GENERATIONS ==> who == None)
    {
      assert n in graves <==> table.held[table.issued[n]] != Some(n);
      AcceptedIffCongruent(table.held, n, table.issued[n], side);
      if |table.issued| <= n + GENERATIONS {
        StaleEventsDie(table.held, table.issued, n, side);
      }
    }

    twostate predicate Untouched(c: Conn)
      reads c, c.l2r, c.r2l
    {
      unchanged(c) && unchanged(c.l2r) && unchanged(c.r2l)
    }

    /** An event whose token is neither special nor that of a UDP slot: only the connection it reaches sees it. */
    method OnTcpEvent(k: Kernel, ev: Event, now: nat) returns (ghost to: Option<Conn>, ghost out: Outcome)
      requires Valid()
      modifies repr, k
      ensures Valid() && Onward()
      ensures to == old(Addressee(ev.token))
      ensures to.Some? ==> to.value in old(table.members)
      ensures to.None? ==> k.Count() == old(k.Count())
      ensures out.Keep? ==> table.held == old(table.held)
      ensures if out.Keep? then table.members == old(table.members) && graves == old(graves)
              else
                && to.Some? && table.members == old(table.members) - {to.value}
                && graves == old(graves)[to.value.id := Remains(to.value, Ended(out))]
      ensures to.Some? ==>
                Heard(old(to.value.Now(chunk)), to.value.Now(chunk), old(k.Count()), k.Count(), ev, now, out)
      ensures forall c :: c in old(table.members) && Some(c) != to ==> Untouched(c)
    {
      to, out := None, Keep;
      var found := table.Find(ev.token);
      if found.Some? {
        to := table.slab.slots[found.value];
        out := Reach(k, found.value, ev, now);
      }
    }

    /** The picture of the connections after an event: one has changed or gone, the others are as they were. */
    method HeedEvent(k: Kernel, ev: Event, now: nat, ghost live: map<Conn, Status>)
      returns (ghost touch: Option<Touch>, ghost live': map<Conn, Status>)
      requires Valid() && Pictured(live)
      modifies repr, k
      ensures Valid() && Onward() && Pictured(live')
      ensures match touch
              case None =>
                && Lookup(old(table.held), ev.token) == None && live' == live && k.Count() == old(k.Count())
                && graves == old(graves) && table.held == old(table.held)
              case Some(Touch(c, out, left)) =>
                && Reaches(old(table.held), ev.token, c) && c in live
                && Heard(live[c], left, old(k.Count()), k.Count(), ev, now, out)
                && if out.Keep? then live' == live[c := left] && graves == old(graves) && table.held == old(table.held)
                   else live' == live - {c} && graves == old(graves)[c.id := GraveOf(c, left, Ended(out))]
    {
      AddresseeReached(ev.token);
      ghost var to, out := OnTcpEvent(k, ev, now);
      touch, live' := None, live;
      if to.Some? {
        ghost var c, left := to.value, to.value.Now(chunk);
        touch, live' := Some(Touch(c, out, left)), if out.Keep? then live[c := left] else live - {c};
      }
      forall d | d in live'
        ensures live'[d] == d.Now(chunk)
      {
        assert Some(d) != to ==> Untouched(d);
      }
    }

    /** The connection in slot `idx` handles an event, and is buried unless it lives on. */
    method Reach(k: Kernel, idx: nat, ev: Event, now: nat) returns (ghost out: Outcome)
      requires Valid() && idx < |table.slab.slots| && table.slab.slots[idx].Some?
      modifies repr, k
      ensures Valid() && Onward()
      ensures var c := old(table.slab.slots[idx].value);
              && Heard(old(c.Now(chunk)), c.Now(chunk), old(k.Count()), k.Count(), ev, now, out)
              && if out.Keep? then table.members == old(table.members) && graves == old(graves)
                 else
                   && table.members == old(table.members) - {c}
                   && graves == old(graves)[c.id := Remains(c, Ended(out))]
      ensures out.Keep? ==> table.held == old(table.held)
      ensures forall d :: d in old(table.members) && d != old(table.slab.slots[idx].value) ==> Untouched(d)
    {
      var o := Deliver(k, idx, ev, now);
      if o != Keep {
        Bury(idx, Ended(o));
      }
      out := o;
    }

    /** The slots of the connections in `late`. */
    ghost function SlotsOf(slots: seq<Option<Conn>>, late: set<Conn>): set<nat> {
      set i | 0 <= i < |slots| && slots[i].Some? && slots[i].value in late
    }

    /** The late connections are those past a limit, and every connection has a grave ready, should it be late. */
    ghost predicate Ready(now: nat, late: set<Conn>, tombs: map<nat, Grave>)
      requires Owned()
      reads this, repr
    {
      forall c :: c in table.members ==>
        && (c in late <==> Expired(c, now, limits))
        && c.id in tombs && tombs[c.id] == Remains(c, TimedOut)
    }

    /** The pass has freed the doomed slots below `done`, and stands at slot `i`. */
    ghost predicate Sweeping(before: seq<Option<Conn>>, doomed: set<nat>, done: nat, i: nat)
      reads table.slab, this, table
    {
      && i <= done <= |table.slab.slots| == |before| && done <= i + 1
      && table.slab.slots == Swept(before, doomed, done)
      && (done > i ==> table.slab.slots[i].None?)
    }

    /** The graves dug since are those that were ready. */
    twostate predicate OnlyInto(tombs: map<nat, Grave>)
      reads this
    {
      Buried() && forall n :: n in graves && n !in old(graves) ==> n in tombs && graves[n] == tombs[n]
    }

    ghost function Tombs(): (tombs: map<nat, Grave>)
      requires Valid()
      reads this, repr
      ensures forall c :: c in table.members ==> c.id in tombs && tombs[c.id] == Remains(c, TimedOut)
    {
      map n | 0 <= n < |table.issued| && n !in graves :: Remains(table.slab.slots[table.issued[n]].value, TimedOut)
    }

    /** The 1 Hz pass over the slab; the index stays put when a slot is freed. */
    method Sweep(now: nat, ghost late: set<Conn>, ghost tombs: map<nat, Grave>)
      requires Valid() && Ready(now, late, tombs)
      modifies `graves, table, table.slab
      ensures Valid() && table.issued == old(table.issued) && OnlyInto(tombs)
      ensures table.slab.slots
              == Swept(old(table.slab.slots), SlotsOf(old(table.slab.slots), late), |old(table.slab.slots)|)
    {
      ghost var before := table.slab.slots;
      var i := 0;
      ghost var done := 0;
      while i < |table.slab.slots|
        invariant Valid() && Ready(now, late, tombs) && table.issued == old(table.issued) && OnlyInto(tombs)
        invariant Sweeping(before, SlotsOf(before, late), done, i)
        decreases |before| - i, |before| - done
      {
        i, done := SweepSlot(i, now, before, late, tombs, done);
      }
    }

    /** A pass keeps exactly the connections that are not late. */
    lemma Survivors(before: seq<Option<Conn>>, held: Held, members: set<Conn>, late: set<Conn>, c: Conn)
      requires Consistent(before, held, table.issued, members) && table.Valid()
      requires table.slab.slots == Swept(before, SlotsOf(before, late), |before|)
      requires c in members || c in table.members
      ensures c in table.members <==> c in members && c !in late
    {
      SweptAt(before, SlotsOf(before, late), |before|, table.issued[c.id]);
    }

    /** Nobody is both alive and buried. */
    lemma NotBuried(c: Conn)
      requires Valid() && c in table.members
      ensures c.id !in graves
    {
      assert table.held[table.issued[c.id]] == Some(c.id);
    }

    /** A connection that the pass has taken out of its slot is buried. */
    lemma Missing(before: seq<Option<Conn>>, held: Held, members: set<Conn>, doomed: set<nat>, c: Conn)
      requires Consistent(before, held, table.issued, members) && Valid()
      requires table.slab.slots == Swept(before, doomed, |before|)
      requires c in members && c !in table.members
      ensures c.id in graves
    {
      SweptAt(before, doomed, |before|, table.issued[c.id]);
    }

    /** The cleanup of the TCP side: exactly the expired connections go, each to a grave of its own. */
    method Cleanup(now: nat)
      requires Valid()
      modifies `graves, table, table.slab
      ensures Valid() && Onward() && table.issued == old(table.issued)
      ensures forall c :: c in table.members <==> c in old(table.members) && !old(Expired(c, now, limits))
      ensures forall c :: c in old(table.members) && c !in table.members ==>
                c.id in graves && graves[c.id] == old(Remains(c, TimedOut))
      ensures forall c :: c in old(table.members) ==> Untouched(c)
    {
      ghost var before, held, members, tombs := table.slab.slots, table.held, table.members, Tombs();
      ghost var late := set c | c in members && Expired(c, now, limits);
      forall c | c in members
        ensures c.id !in graves
      {
        NotBuried(c);
      }
      Sweep(now, late, tombs);
      forall c | c in members || c in table.members
        ensures c in table.members <==> c in members && c !in late
      {
        Survivors(before, held, members, late, c);
      }
      forall c | c in members && c !in table.members
        ensures c.id in graves && graves[c.id] == tombs[c.id]
      {
        Missing(before, held, members, SlotsOf(before, late), c);
      }
    }

    /** What a picture says about limits and graves is what the connections say. */
    lemma PictureTrue(live: map<Conn, Status>, now: nat)
      requires Owned() && Pictured(live)
      ensures forall c :: c in live ==>
                && PastLimit(c, live[c], now, limits) == Expired(c, now, limits)
                && GraveOf(c, live[c], TimedOut) == Remains(c, TimedOut)
    {
      forall c | c in live
        ensures PastLimit(c, live[c], now, limits) == Expired(c, now, limits)
        ensures GraveOf(c, live[c], TimedOut) == Remains(c, TimedOut)
      {
        assert live[c] == c.Now(chunk);
      }
    }

    /** The picture of the connections after the cleanup. */
    method CleanUp(now: nat, ghost live: map<Conn, Status>) returns (ghost live': map<Conn, Status>)
      requires Valid() && Pictured(live)
      modifies `graves, table, table.slab
      ensures Valid() && Onward() && Pictured(live')
      ensures live' == WithinLimits(live, now, limits)
      ensures forall c :: c in live && c !in live' ==>
                c.id in graves && graves[c.id] == GraveOf(c, live[c], TimedOut)
    {
      PictureTrue(live, now);
      live' := WithinLimits(live, now, limits);
      Cleanup(now);
      forall d | d in live
        ensures live[d] == d.Now(chunk)
      {
        assert Untouched(d);
      }
      Fewer(live, live');
    }

    lemma Fewer(live: map<Conn, Status>, live': map<Conn, Status>)
      requires Owned() && forall c :: c in table.members <==> c in live'
      requires forall c :: c in live' ==> c in live && live'[c] == live[c]
      requires forall c :: c in live ==> live[c] == c.Now(chunk)
      ensures Pictured(live')
    {
      assert live'.Keys == table.members;
    }

    /** One step of the pass. */
    method SweepSlot(i: nat, now: nat, ghost before: seq<Option<Conn>>,
                     ghost late: set<Conn>, ghost tombs: map<nat, Grave>, ghost done: nat)
      returns (next: nat, ghost done': nat)
      requires Valid() && i < |table.slab.slots| && Sweeping(before, SlotsOf(before, late), done, i)
      requires Ready(now, late, tombs)
      modifies `graves, table, table.slab
      ensures Valid() && Ready(now, late, tombs) && table.issued == old(table.issued) && OnlyInto(tombs)
      ensures Sweeping(before, SlotsOf(before, late), done', next) && done' == i + 1 && i <= next
      ensures next == i ==> done == i
    {
      next, done' := i + 1, i + 1;
      SweptAt(before, SlotsOf(before, late), done, i);
      var slot := table.slab.slots[i];
      if slot.Some? && Expired(slot.value, now, limits) {
        assert done == i && i in SlotsOf(before, late);
        Evict(i, now, late, tombs);
        next := i;
      }
    }

    /** A connection that is past a limit goes to the grave that is ready for it. */
    method Evict(i: nat, now: nat, ghost late: set<Conn>, ghost tombs: map<nat, Grave>)
      requires Valid() && Ready(now, late, tombs) && i < |table.slab.slots| && table.slab.slots[i].Some?
      modifies `graves, table, table.slab
      ensures Valid() && Ready(now, late, tombs) && table.issued == old(table.issued) && OnlyInto(tombs)
      ensures table.slab.slots == old(table.slab.slots)[i := None]
    {
      NotBuried(table.slab.slots[i].value);
      Bury(i, TimedOut);
    }
  }
}
