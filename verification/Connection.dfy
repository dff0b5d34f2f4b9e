/**
 One TCP connection of relay-rs/src/main.rs: the `Conn` record, `conn_watch`, and the body of the
 event handler that pumps both directions, half-closes and closes.
 */
module Connection {
  import opened Wrappers
  import opened Pumping

  datatype Flag = Et | In | Out | RdHup | ErrF | Hup

  /** What an event does to the slot of its connection. */
  datatype Outcome = Keep | ConnectFailed | SocketError | PumpFailed | FullyClosed

  /** What `conn_watch` arms on the source of one direction and the sink of the other. */
  function Want(eof: bool, len: nat, chunk: nat, backlog: nat): set<Flag> {
    {Et}
    + (if eof then {} else {RdHup} + (if len < chunk then {In} else {}))
    + (if backlog > 0 then {Out} else {})
  }

  /** Level-triggered flags of a socket whose connect is still in progress. */
  const CONNECT_FLAGS: set<Flag> := {Out, RdHup, ErrF, Hup}

  /**
   The kernel reports a socket that is armed with `armed`.  Two conditions are reported whether or not
   they are armed: EPOLLERR, when the socket has `failed`, and EPOLLHUP, when it is down both ways,
   having received its peer's FIN and sent its own.
   */
  ghost predicate Raised(armed: set<Flag>, source: Wire, sink: Wire, failed: bool)
    reads source, sink
  {
    || (In in armed && (source.arrived > 0 || source.finIn))
    || (RdHup in armed && source.finIn)
    || (Out in armed && sink.room > 0)
    || failed
    || (source.finIn && sink.finAt != [])
  }

  /** A FIN waits behind a full chunk: EPOLLRDHUP stays armed. */
  ghost predicate FinBehindChunk(w: Wire, chunk: nat, eof: bool)
    reads w
  {
    !eof && w.finIn && |w.pipe| >= chunk
  }

  /** Something waits behind a full pipe that is smaller than a chunk: EPOLLIN stays armed. */
  ghost predicate BehindSmallPipe(w: Wire, chunk: nat, eof: bool)
    reads w
  {
    !eof && w.cap <= |w.pipe| < chunk && (w.arrived > 0 || w.finIn)
  }

  /** The last bytes wait while the source's socket is already down both ways: EPOLLHUP cannot be disarmed. */
  ghost predicate BehindHangup(w: Wire, back: Wire, eof: bool)
    reads w, back
  {
    eof && w.pipe != [] && back.finAt != []
  }

  /**
   A direction that keeps being reported although no splice of it can do anything: its sink is
   congested, and one of three conditions holds its source's socket up.
   */
  ghost predicate Spinning(w: Wire, back: Wire, chunk: nat, eof: bool)
    reads w, back
  {
    w.room == 0 && (FinBehindChunk(w, chunk, eof) || BehindSmallPipe(w, chunk, eof) || BehindHangup(w, back, eof))
  }

  /** The program's record of one direction agrees with the kernel's. */
  ghost predicate Tracks(w: Wire, len: nat, chunk: nat, eof: bool, shut: bool)
    reads w
  {
    && w.Sound()
    && len == |w.pipe| <= chunk
    && (eof ==> w.unread == [] && w.finIn)
    && (shut <==> eof && len == 0)
    && w.finAt == (if shut then [|w.stream|] else [])
  }

  /** One direction as it is at some moment: the streams, and the program's record. */
  datatype Side = Side(unread: seq<Byte>, pipe: seq<Byte>, sent: seq<Byte>, fins: seq<nat>,
                       eof: bool, shut: bool, last: nat, movable: bool, whole: bool)
  {
    /** The splices still to be done. */
    function Work(): nat {
      2 * |unread| + |pipe|
    }
  }

  ghost function SideOf(w: Wire, chunk: nat, eof: bool, shut: bool, last: nat): Side
    reads w
  {
    Side(w.unread, w.pipe, w.sent, w.finAt, eof, shut, last, w.CanMove(chunk, eof),
         w.sent == w.stream && w.finAt == [|w.stream|])
  }

  /**
   What time never undoes: what has been delivered stays delivered, work is never added, and a
   direction that has been shut is never touched again.
   */
  predicate Ahead(s: Side, t: Side) {
    && s.sent <= t.sent && t.Work() <= s.Work()
    && (s.eof ==> t.eof)
    && (s.shut ==> t.shut && t.sent == s.sent && t.fins == s.fins && t.Work() == s.Work())
  }

  /**
   What an event leaves true of a direction, even if the connection is then torn down.  The sink is
   shut at most once, and only when the whole stream has gone before.
   */
  predicate Forward(s: Side, t: Side, now: nat) {
    && Ahead(s, t)
    && (t.fins == s.fins || (t.fins == s.fins + [|t.sent|] && t.whole))
    && t.last == (if t.Work() < s.Work() then now else s.last)
  }

  /** A byte has moved or an EOF has been recorded. */
  predicate Advanced(s: Side, t: Side) {
    t.Work() < s.Work() || t.eof != s.eof
  }

  /** The counts only grow. */
  predicate After(k: Answers, k': Answers) {
    && k.again <= k'.again && k.faults <= k'.faults && k.news <= k'.news
    && k.broken <= k'.broken && k.ends <= k'.ends
  }

  /**
   One direction served: what could move does, and nothing else; a willing kernel carries the whole
   stream and its FIN; an EOF is recorded exactly when the kernel reports one, and no error comes with it.
   */
  predicate Pushed(s: Side, t: Side, k: Answers, k': Answers, now: nat) {
    && Forward(s, t, now) && After(k, k')
    && (k'.again == k.again && k'.faults == k.faults ==> t.shut)
    && (s.movable && k'.faults == k.faults ==> Advanced(s, t))
    && (!s.movable && k'.news == k.news ==> !Advanced(s, t))
    && NewEnds(s, t) == (if k'.broken == k.broken then k'.ends - k.ends else 0)
  }

  function NewEnds(s: Side, t: Side): int {
    if t.eof && !s.eof then 1 else 0
  }

  /**
   One direction of one event: pump, or drain what is left after EOF, then pass the FIN on once the
   last byte is delivered.  The handler contains this block twice, once per direction.
   */
  method ServeDirection(w: Wire, k: Kernel, len0: nat, chunk: nat, now: nat, last0: nat, eof0: bool, shut0: bool)
    returns (ok: bool, len: nat, last: nat, eof: bool, shut: bool)
    requires Tracks(w, len0, chunk, eof0, shut0) && chunk > 0
    modifies w, k
    ensures Pushed(old(SideOf(w, chunk, eof0, shut0, last0)), SideOf(w, chunk, eof, shut, last),
                   old(k.Count()), k.Count(), now)
    ensures w.Sound() && (ok <==> k.broken == old(k.broken))
    ensures if ok then Tracks(w, len, chunk, eof, shut)
            else k.faults > old(k.faults) && eof == eof0 && shut == shut0
  {
    ok, len, last, eof, shut := true, len0, last0, eof0, shut0;
    if !eof {
      var st: PumpStatus;
      st, len, last := Pump(w, k, len, chunk, now, last);
      if st.Err? {
        return false, len, last, eof, shut;
      }
      eof := st.Eof?;
    } else if len > 0 {
      var stop: Stop;
      stop, len, last := DrainPipe(w, k, len, now, last, true);
      if stop.Broken? || stop.Stalled? {
        return false, len, last, eof, shut;
      }
    }
    if eof && len == 0 && !shut {
      w.Shutdown();
      shut := true;
    }
  }

  /** A connection as it is at some moment. */
  datatype Status = Status(l2r: Side, r2l: Side, halfClose: Option<nat>, connecting: bool,
                           armedL: set<Flag>, armedR: set<Flag>, setL: bool, setR: bool, rearmed: bool)
  {
    predicate Movable() {
      l2r.movable || r2l.movable
    }

    predicate Whole() {
      l2r.whole && r2l.whole
    }
  }

  /** The half-close clock starts with the first EOF and stops with the second. */
  function Clock(half: Option<nat>, oneEnded: bool, oneEnded': bool, now: nat): Option<nat> {
    if !oneEnded' then None else if oneEnded then half else Some(now)
  }

  predicate ClockKept(s: Status, t: Status, now: nat) {
    t.halfClose == Clock(s.halfClose, s.l2r.eof != s.r2l.eof, t.l2r.eof != t.r2l.eof, now)
  }

  /** Both directions served. */
  predicate Pumped(s: Status, t: Status, k: Answers, k': Answers, now: nat) {
    && t.connecting == s.connecting && After(k, k')
    && Forward(s.l2r, t.l2r, now) && Forward(s.r2l, t.r2l, now)
    && (k'.again == k.again && k'.faults == k.faults ==> t.l2r.shut && t.r2l.shut)
    && (s.Movable() && k'.faults == k.faults ==> Advanced(s.l2r, t.l2r) || Advanced(s.r2l, t.r2l))
    && (!s.Movable() && k'.news == k.news ==> !Advanced(s.l2r, t.l2r) && !Advanced(s.r2l, t.r2l))
    && (k'.broken == k.broken ==> NewEnds(s.l2r, t.l2r) + NewEnds(s.r2l, t.r2l) == k'.ends - k.ends)
  }

  lemma PumpedBoth(s: Status, m: Status, t: Status, k: Answers, k1: Answers, k2: Answers, now: nat)
    requires Pushed(s.l2r, m.l2r, k, k1, now) && m.r2l == s.r2l && m.connecting == s.connecting
    requires Pushed(m.r2l, t.r2l, k1, k2, now) && t.l2r == m.l2r && t.connecting == m.connecting
    ensures Pumped(s, t, k, k2, now)
    ensures ClockKept(s, m, now) && ClockKept(m, t, now) ==> ClockKept(s, t, now)
  {
  }

  lemma PumpedOne(s: Status, m: Status, k: Answers, k1: Answers, now: nat)
    requires Pushed(s.l2r, m.l2r, k, k1, now) && m.r2l == s.r2l && m.connecting == s.connecting
    requires k1.faults > k.faults && k1.broken > k.broken
    ensures Pumped(s, m, k, k1, now)
  {
  }

  /**
   What pumping does.  With a willing kernel a single event delivers both streams and closes the
   connection; progress is made exactly when some splice can make it; and the connection fails exactly
   when a splice was given an answer that it takes for an error.
   */
  predicate Relayed(s: Status, t: Status, k: Answers, k': Answers, now: nat, okL: bool, okR: bool, out: Outcome) {
    && Pumped(s, t, k, k', now)
    && (k'.again == k.again && k'.faults == k.faults ==> out.FullyClosed?)
    && (out.PumpFailed? <==> k'.broken > k.broken)
    && match out
       case Keep =>
         ClockKept(s, t, now) && t.rearmed && t.setL == okL && t.setR == okR && !(t.l2r.shut && t.r2l.shut)
       case FullyClosed => t.Whole() && t.l2r.shut && t.r2l.shut
       case PumpFailed => k'.faults > k.faults
       case _ => false
  }

  /** An event of the remote side of a connection in progress tells how the connect went, and moves nothing. */
  predicate ConnectReported(s: Status, t: Status, flags: set<Flag>, connected: bool,
                            okL: bool, okR: bool, out: Outcome) {
    if flags * CONNECT_FLAGS == {} then out.Keep? && t == s
    else if !connected then out.ConnectFailed? && t == s
    else out.Keep? && t == s.(connecting := false, rearmed := true, setL := okL, setR := okR,
                              armedL := t.armedL, armedR := t.armedR)
  }

  /** What one event does to a connection. */
  predicate Handled(s: Status, t: Status, k: Answers, k': Answers, flags: set<Flag>, remote: bool, connected: bool,
                    now: nat, okL: bool, okR: bool, out: Outcome) {
    if s.connecting && remote then k' == k && ConnectReported(s, t, flags, connected, okL, okR, out)
    else if ErrF in flags then out.SocketError? && t == s && k' == k
    else Relayed(s, t, k, k', now, okL, okR, out)
  }

  class Conn {
    const gen: nat
    ghost const id: nat   // the number of this connection, counting every one ever built
    const l2r: Wire   // fd_l -> pipe_l2r -> fd_r
    const r2l: Wire   // fd_r -> pipe_r2l -> fd_l
    var lenL2R: nat
    var lenR2L: nat
    var lastL2R: nat
    var lastR2L: nat
    var eofL2R: bool
    var eofR2L: bool
    var shutWrR: bool
    var shutWrL: bool
    var halfCloseSince: Option<nat>
    var connecting: bool
    const connectStart: nat
    // the epoll registrations of the two sockets, and whether the last request to set each was granted
    var armedL: set<Flag>
    var armedR: set<Flag>
    var setL: bool
    var setR: bool
    ghost var rearmed: bool   // conn_watch has run at least once

    /** Holds between any two events. */
    ghost predicate Valid(chunk: nat)
      reads this, l2r, r2l
    {
      && l2r != r2l && chunk > 0
      && Tracks(l2r, lenL2R, chunk, eofL2R, shutWrR)
      && Tracks(r2l, lenR2L, chunk, eofR2L, shutWrL)
      && !(shutWrR && shutWrL)
      && (halfCloseSince.Some? <==> eofL2R != eofR2L)
      && Armed(chunk)
    }

    /** At rest the armed flags are those the state calls for, the first registration included. */
    ghost predicate Armed(chunk: nat)
      reads this
    {
      if connecting && !rearmed then
        (setL ==> armedL == {Et, RdHup}) && (setR ==> armedR == CONNECT_FLAGS)
      else
        && (setL ==> armedL == Want(eofL2R, lenL2R, chunk, lenR2L))
        && (setR ==> armedR == Want(eofR2L, lenR2L, chunk, lenL2R))
    }

    /** A connection fresh from `accept`, registered by the two `epoll.add` calls. */
    constructor (gen: nat, ghost id: nat, l2r: Wire, r2l: Wire, connecting: bool, now: nat, chunk: nat)
      requires l2r != r2l && chunk > 0 && l2r.Sound() && r2l.Sound()
      requires l2r.pipe == r2l.pipe == [] && l2r.finAt == r2l.finAt == []
      ensures Valid(chunk) && this.gen == gen && this.id == id && this.l2r == l2r && this.r2l == r2l
      ensures this.connecting == connecting && connectStart == lastL2R == lastR2L == now
      ensures halfCloseSince == None && !rearmed && setL && setR
      ensures lenL2R == lenR2L == 0 && !eofL2R && !eofR2L && !shutWrR && !shutWrL
    {
      this.gen, this.id, this.l2r, this.r2l := gen, id, l2r, r2l;
      this.connecting, connectStart, lastL2R, lastR2L := connecting, now, now, now;
      lenL2R, lenR2L, eofL2R, eofR2L, shutWrR, shutWrL := 0, 0, false, false, false, false;
      halfCloseSince := None;
      armedL := if connecting then {Et, RdHup} else {Et, In, RdHup};
      armedR := if connecting then CONNECT_FLAGS else {Et, In, RdHup};
      setL, setR, rearmed := true, true, false;
    }

    /** `conn_watch`; either `epoll.modify` may be refused, which is only logged. */
    method Watch(chunk: nat, okL: bool, okR: bool)
      modifies `armedL, `armedR, `setL, `setR, `rearmed
      ensures rearmed && Armed(chunk) && setL == okL && setR == okR
      ensures (okL ==> Et in armedL) && (okR ==> Et in armedR)
      ensures !okL ==> armedL == old(armedL)
      ensures !okR ==> armedR == old(armedR)
    {
      var wantL := {Et};
      if !eofL2R {
        wantL := wantL + {RdHup};
        if lenL2R < chunk {
          wantL := wantL + {In};
        }
      }
      if lenR2L > 0 {
        wantL := wantL + {Out};
      }
      var wantR := {Et};
      if !eofR2L {
        wantR := wantR + {RdHup};
        if lenR2L < chunk {
          wantR := wantR + {In};
        }
      }
      if lenL2R > 0 {
        wantR := wantR + {Out};
      }
      if okL {
        armedL := wantL;
      }
      if okR {
        armedR := wantR;
      }
      setL, setR, rearmed := okL, okR, true;
    }

    /** Some splice of either direction could do something. */
    ghost predicate CanMove(chunk: nat)
      reads `eofL2R, `eofR2L, l2r, r2l
    {
      l2r.CanMove(chunk, eofL2R) || r2l.CanMove(chunk, eofR2L)
    }

    ghost function L2R(chunk: nat): Side
      reads `eofL2R, `shutWrR, `lastL2R, l2r
    {
      SideOf(l2r, chunk, eofL2R, shutWrR, lastL2R)
    }

    ghost function R2L(chunk: nat): Side
      reads `eofR2L, `shutWrL, `lastR2L, r2l
    {
      SideOf(r2l, chunk, eofR2L, shutWrL, lastR2L)
    }

    ghost function Now(chunk: nat): Status
      reads this, l2r, r2l
    {
      Status(L2R(chunk), R2L(chunk), halfCloseSince, connecting, armedL, armedR, setL, setR, rearmed)
    }

    /** Holds between the two directions of one event. */
    ghost predicate Midway(chunk: nat)
      reads `lenL2R, `lenR2L, `eofL2R, `eofR2L, `shutWrR, `shutWrL, `halfCloseSince, l2r, r2l
    {
      && l2r != r2l && chunk > 0
      && Tracks(l2r, lenL2R, chunk, eofL2R, shutWrR)
      && Tracks(r2l, lenR2L, chunk, eofR2L, shutWrL)
      && (halfCloseSince.Some? <==> eofL2R != eofR2L)
    }

    /** EOF on the local side: the half-close clock starts, or stops if both sides have ended. */
    method EndedL2R(now: nat)
      requires !eofL2R && (halfCloseSince.Some? <==> eofR2L)
      modifies `eofL2R, `halfCloseSince
      ensures eofL2R && halfCloseSince == if eofR2L then None else Some(now)
    {
      eofL2R := true;
      if !eofR2L && halfCloseSince.None? {
        halfCloseSince := Some(now);
      } else if eofR2L {
        halfCloseSince := None;
      }
    }

    /** The program's record of the local-to-remote direction after it has been served. */
    method RecordL2R(len: nat, last: nat, eof: bool, shut: bool, now: nat)
      requires (halfCloseSince.Some? <==> eofL2R != eofR2L) && (eofL2R ==> eof)
      modifies `lenL2R, `lastL2R, `eofL2R, `shutWrR, `halfCloseSince
      ensures lenL2R == len && lastL2R == last && eofL2R == eof && shutWrR == shut
      ensures halfCloseSince == Clock(old(halfCloseSince), old(eofL2R != eofR2L), eof != eofR2L, now)
    {
      lenL2R, lastL2R, shutWrR := len, last, shut;
      if eof && !eofL2R {
        EndedL2R(now);
      }
    }

    /** The local-to-remote half of an event. */
    method ServeL2R(k: Kernel, chunk: nat, now: nat) returns (ok: bool)
      requires Midway(chunk)
      modifies `lenL2R, `lastL2R, `eofL2R, `shutWrR, `halfCloseSince, l2r, k
      ensures Pushed(old(L2R(chunk)), L2R(chunk), old(k.Count()), k.Count(), now)
      ensures l2r.Sound() && (!ok ==> k.faults > old(k.faults)) && (ok <==> k.broken == old(k.broken))
      ensures ok ==> Midway(chunk) &&
                     halfCloseSince == Clock(old(halfCloseSince), old(eofL2R != eofR2L), eofL2R != eofR2L, now)
    {
      var len, last, eof, shut;
      ok, len, last, eof, shut := ServeDirection(l2r, k, lenL2R, chunk, now, lastL2R, eofL2R, shutWrR);
      RecordL2R(len, last, eof, shut, now);
    }

    /** EOF on the remote side: the half-close clock starts, or stops if both sides have ended. */
    method EndedR2L(now: nat)
      requires !eofR2L && (halfCloseSince.Some? <==> eofL2R)
      modifies `eofR2L, `halfCloseSince
      ensures eofR2L && halfCloseSince == if eofL2R then None else Some(now)
    {
      eofR2L := true;
      if !eofL2R && halfCloseSince.None? {
        halfCloseSince := Some(now);
      } else if eofL2R {
        halfCloseSince := None;
      }
    }

    /** The program's record of the remote-to-local direction after it has been served. */
    method RecordR2L(len: nat, last: nat, eof: bool, shut: bool, now: nat)
      requires (halfCloseSince.Some? <==> eofL2R != eofR2L) && (eofR2L ==> eof)
      modifies `lenR2L, `lastR2L, `eofR2L, `shutWrL, `halfCloseSince
      ensures lenR2L == len && lastR2L == last && eofR2L == eof && shutWrL == shut
      ensures halfCloseSince == Clock(old(halfCloseSince), old(eofR2L != eofL2R), eof != eofL2R, now)
    {
      lenR2L, lastR2L, shutWrL := len, last, shut;
      if eof && !eofR2L {
        EndedR2L(now);
      }
    }

    /** The remote-to-local half of an event. */
    method ServeR2L(k: Kernel, chunk: nat, now: nat) returns (ok: bool)
      requires Midway(chunk)
      modifies `lenR2L, `lastR2L, `eofR2L, `shutWrL, `halfCloseSince, r2l, k
      ensures Pushed(old(R2L(chunk)), R2L(chunk), old(k.Count()), k.Count(), now)
      ensures r2l.Sound() && (!ok ==> k.faults > old(k.faults)) && (ok <==> k.broken == old(k.broken))
      ensures ok ==> Midway(chunk) &&
                     halfCloseSince == Clock(old(halfCloseSince), old(eofR2L != eofL2R), eofR2L != eofL2R, now)
    {
      var len, last, eof, shut;
      ok, len, last, eof, shut := ServeDirection(r2l, k, lenR2L, chunk, now, lastR2L, eofR2L, shutWrL);
      RecordR2L(len, last, eof, shut, now);
    }

    /** Both halves in turn; a failure of the first leaves the second alone. */
    method ServeBoth(k: Kernel, chunk: nat, now: nat) returns (ok: bool)
      requires Midway(chunk)
      modifies this, l2r, r2l, k
      ensures Pumped(old(Now(chunk)), Now(chunk), old(k.Count()), k.Count(), now)
      ensures l2r.Sound() && r2l.Sound() && (!ok ==> k.faults > old(k.faults))
      ensures ok <==> k.broken == old(k.broken)
      ensures ok ==> Midway(chunk) && ClockKept(old(Now(chunk)), Now(chunk), now)
    {
      ghost var before, k0 := Now(chunk), k.Count();
      ok := ServeL2R(k, chunk, now);
      assert R2L(chunk) == before.r2l;
      if ok {
        ok := ServeRest(k, chunk, now, before, k0);
      } else {
        PumpedOne(before, Now(chunk), k0, k.Count(), now);
      }
    }

    /** The second half, once the first has been served. */
    method ServeRest(k: Kernel, chunk: nat, now: nat, ghost before: Status, ghost k0: Answers) returns (ok: bool)
      requires Midway(chunk) && Pushed(before.l2r, L2R(chunk), k0, k.Count(), now) && k.broken == k0.broken
      requires R2L(chunk) == before.r2l && connecting == before.connecting && ClockKept(before, Now(chunk), now)
      modifies `lenR2L, `lastR2L, `eofR2L, `shutWrL, `halfCloseSince, r2l, k
      ensures Pumped(before, Now(chunk), k0, k.Count(), now)
      ensures l2r.Sound() && r2l.Sound() && (!ok ==> k.faults > k0.faults)
      ensures ok <==> k.broken == k0.broken
      ensures ok ==> Midway(chunk) && ClockKept(before, Now(chunk), now)
    {
      ghost var midway, k1 := Now(chunk), k.Count();
      ok := ServeR2L(k, chunk, now);
      assert L2R(chunk) == midway.l2r;
      PumpedBoth(before, midway, Now(chunk), k0, k1, k.Count(), now);
    }

    /** The end of the handler: "Fully Closed" is exactly the state in which both sinks have been shut. */
    method Settle(chunk: nat, okL: bool, okR: bool) returns (out: Outcome)
      requires Midway(chunk)
      modifies `armedL, `armedR, `setL, `setR, `rearmed
      ensures L2R(chunk) == old(L2R(chunk)) && R2L(chunk) == old(R2L(chunk)) && halfCloseSince == old(halfCloseSince)
      ensures if shutWrR && shutWrL then out.FullyClosed? && Now(chunk).Whole()
              else out.Keep? && Valid(chunk) && rearmed && setL == okL && setR == okR
    {
      if eofL2R && eofR2L && lenL2R == 0 && lenR2L == 0 {
        return FullyClosed;
      }
      Watch(chunk, okL, okR);
      return Keep;
    }

    /** The pumping part of the event handler. */
    method Serve(k: Kernel, chunk: nat, now: nat, okL: bool, okR: bool) returns (out: Outcome)
      requires Valid(chunk)
      modifies this, l2r, r2l, k
      ensures Relayed(old(Now(chunk)), Now(chunk), old(k.Count()), k.Count(), now, okL, okR, out)
      ensures l2r.Sound() && r2l.Sound() && (out.Keep? ==> Valid(chunk))
    {
      var ok := ServeBoth(k, chunk, now);
      if !ok {
        return PumpFailed;
      }
      out := Settle(chunk, okL, okR);
    }

    method FinishConnect(flags: set<Flag>, connected: bool, chunk: nat, okL: bool, okR: bool) returns (out: Outcome)
      requires Valid(chunk) && connecting
      modifies `connecting, `armedL, `armedR, `setL, `setR, `rearmed
      ensures ConnectReported(old(Now(chunk)), Now(chunk), flags, connected, okL, okR, out) && Valid(chunk)
    {
      if flags * {Out, ErrF, Hup, RdHup} != {} {
        if !connected {
          return ConnectFailed;
        }
        connecting := false;
        Watch(chunk, okL, okR);
      }
      return Keep;
    }

    /**
     The event handler.  `connected` is whether SO_ERROR reads zero when it is asked for; `okL` and
     `okR` are whether `epoll.modify` is granted.
     */
    method Handle(k: Kernel, flags: set<Flag>, remote: bool, connected: bool,
                  chunk: nat, now: nat, okL: bool, okR: bool) returns (out: Outcome)
      requires Valid(chunk)
      modifies this, l2r, r2l, k
      ensures Handled(old(Now(chunk)), Now(chunk), old(k.Count()), k.Count(),
                      flags, remote, connected, now, okL, okR, out)
      ensures l2r.Sound() && r2l.Sound() && (out.Keep? ==> Valid(chunk))
    {
      if remote && connecting {
        out := FinishConnect(flags, connected, chunk, okL, okR);
        return;
      }
      if ErrF in flags {
        return SocketError;
      }
      out := Serve(k, chunk, now, okL, okR);
    }
  }

  /**
   At rest, provided the last requests to set the flags were granted, one of the two sockets is
   reported exactly when it has failed, when some splice could move something, or when a direction spins.
   */
  lemma WakeUpExact(c: Conn, chunk: nat, failedL: bool, failedR: bool)
    requires c.Valid(chunk) && !c.connecting && c.setL && c.setR
    ensures Raised(c.armedL, c.l2r, c.r2l, failedL) || Raised(c.armedR, c.r2l, c.l2r, failedR)
            <==>
            || failedL || failedR || c.CanMove(chunk)
            || Spinning(c.l2r, c.r2l, chunk, c.eofL2R) || Spinning(c.r2l, c.l2r, chunk, c.eofR2L)
  {
  }

  /** With a pipe that holds a whole chunk, a direction spins only on a FIN or a hangup. */
  lemma SpinsOnlyOnFin(w: Wire, back: Wire, chunk: nat, eof: bool)
    requires w.Sound() && w.cap >= chunk > 0
    ensures Spinning(w, back, chunk, eof) <==>
            w.room == 0 && (FinBehindChunk(w, chunk, eof) || BehindHangup(w, back, eof))
  {
  }

  /**
   The registration of a socket in progress is level-triggered, so a report that left it as it is would
   come again at once.  None does: whatever is reported, the handler asks how the connect went.
   */
  lemma ConnectResolved(c: Conn, chunk: nat, flags: set<Flag>)
    requires c.Valid(chunk) && c.connecting && c.setR && !c.rearmed
    requires flags != {} && flags <= c.armedR + {ErrF, Hup}
    ensures In !in flags && Et !in flags && flags * CONNECT_FLAGS != {}
    ensures forall f :: f in CONNECT_FLAGS <==> f != In && f != Et
  {
    var f :| f in flags;
    assert f in flags * CONNECT_FLAGS;
  }

  /**
   While a connect is in progress the socket that will report its completion is armed for
   writability until an event of the local side is served; after that, only if that event left bytes
   in the pipe.  After an early half-close with nothing sent (`EarlyFin` in Witnesses.dfy) it is not.
   */
  lemma ConnectNoticed(c: Conn, chunk: nat)
    requires c.Valid(chunk) && c.connecting && c.setR
    ensures Out in c.armedR <==> !c.rearmed || c.lenL2R > 0
  {
  }
}
