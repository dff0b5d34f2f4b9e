/**
 States that the program reaches although it should not: for each, the calls and the answers of the
 kernel that lead there.  Where the handler would ask the kernel for something in vain, an assertion
 says that the answer is EAGAIN; where it is told that a stream has ended, that this is the answer.
 */
module Witnesses {
  import opened Wrappers
  import opened Pumping
  import opened Connection
  import opened Logger

  /** The source has given everything but its end. */
  ghost predicate AtEnd(w: Wire)
    reads w
  {
    w.CanFill() && w.arrived == 0
  }

  /** Nothing can be done for this connection, and yet a socket of it is reported. */
  ghost predicate BusyForNothing(c: Conn, chunk: nat)
    reads c, c.l2r, c.r2l
  {
    && c.Valid(chunk) && !c.connecting && c.setL && c.setR && !c.CanMove(chunk)
    && Raised(c.armedL, c.l2r, c.r2l, false)
  }

  /** A new direction with a congested sink; either nothing has come in yet, or everything has. */
  method Source(stream: seq<Byte>, cap: nat, all: bool) returns (w: Wire)
    requires cap > 0
    ensures fresh(w) && w.Sound() && w.cap == cap && w.unread == stream && w.pipe == []
    ensures w.finAt == [] && w.room == 0
    ensures w.finIn == all && w.arrived == if all then |stream| else 0
  {
    w := new Wire(stream, cap, 0);
    if all {
      w.Arrive(|stream|, true, 0);
    }
  }

  /** A chunk fills the pipe of a congested sink; then the client's FIN comes in. */
  method FinSpin(stream: seq<Byte>, answer: seq<Byte>, chunk: nat) returns (c: Conn)
    requires |stream| == chunk > 0
    ensures BusyForNothing(c, chunk) && FinBehindChunk(c.l2r, chunk, c.eofL2R)
  {
    var l2r := Source(stream, chunk, false);
    var r2l := Source(answer, chunk, false);
    c := new Conn(0, 0, l2r, r2l, false, 0, chunk);
    l2r.Arrive(chunk, false, 0);
    Congested(c, chunk);
    l2r.Arrive(0, true, 0);
  }

  /** An event that fills the pipe with a chunk, and finds nothing else to do. */
  method Congested(c: Conn, chunk: nat)
    requires c.Valid(chunk) && c.lenL2R == 0 && !c.eofL2R && !c.eofR2L && c.l2r.cap >= chunk
    requires c.l2r.arrived == chunk && c.l2r.room == 0 && !c.r2l.CanFill() && c.lenR2L == 0
    modifies c, c.l2r
    ensures c.Valid(chunk) && c.connecting == old(c.connecting) && c.setL && c.setR
    ensures c.lenL2R == chunk && !c.eofL2R && !c.eofR2L && c.lenR2L == 0
    ensures c.l2r.room == 0 && c.l2r.arrived == 0 && |c.l2r.unread| == old(|c.l2r.unread|) - chunk
  {
    c.l2r.Load(chunk);
    c.lenL2R := chunk;
    assert c.l2r.room == 0 && !c.r2l.CanFill();
    var _ := c.Settle(chunk, true, true);
  }

  /**
   Both sides end early while the client's last byte waits for a congested remote side: the local
   socket is down both ways, and nothing at all is armed on it.
   */
  method HangupSpin(last: Byte, chunk: nat) returns (c: Conn)
    requires chunk > 1
    ensures BusyForNothing(c, chunk) && BehindHangup(c.l2r, c.r2l, c.eofL2R) && c.armedL == {Et}
  {
    var l2r := Source([last], chunk, true);
    var r2l := Source([], chunk, true);
    c := new Conn(0, 0, l2r, r2l, false, 0, chunk);
    LastByteAndEnd(c, chunk);
    RemoteEnd(c, chunk);
  }

  /** The local-to-remote half of that event: a byte, then the end. */
  method LastByteAndEnd(c: Conn, chunk: nat)
    requires c.Valid(chunk) && chunk > 1 && c.l2r.cap >= chunk && c.lenL2R == 0 && !c.eofL2R && !c.eofR2L
    requires c.l2r.arrived == |c.l2r.unread| == 1 && c.l2r.finIn && c.l2r.room == 0
    modifies c`lenL2R, c`eofL2R, c`halfCloseSince, c.l2r
    ensures c.Midway(chunk) && c.lenL2R == 1 && c.eofL2R && c.l2r.finIn && c.l2r.room == 0
  {
    c.l2r.Load(1);
    c.lenL2R := 1;
    assert AtEnd(c.l2r) && c.l2r.room == 0;
    c.EndedL2R(0);
  }

  /** The remote-to-local half: the end, which is passed on at once. */
  method RemoteEnd(c: Conn, chunk: nat)
    requires c.Midway(chunk) && c.eofL2R && c.lenL2R > 0 && !c.eofR2L && c.lenR2L == 0
    requires AtEnd(c.r2l) && c.r2l.finIn
    modifies c, c.r2l
    ensures c.Valid(chunk) && c.connecting == old(c.connecting) && c.setL && c.setR
    ensures c.eofL2R && c.lenL2R == old(c.lenL2R) && c.eofR2L && c.shutWrL && c.rearmed
  {
    assert AtEnd(c.r2l);
    c.EndedR2L(0);
    c.r2l.Shutdown();
    c.shutWrL := true;
    var _ := c.Settle(chunk, true, true);
  }

  /**
   The client half-closes while the connect is in progress, having sent nothing: its FIN is passed on
   to a socket that is not connected yet, and nothing waits for the writability of that socket.
   */
  method EarlyFin(answer: seq<Byte>, chunk: nat) returns (c: Conn)
    requires chunk > 0
    ensures c.Valid(chunk) && c.connecting && c.setR && Out !in c.armedR && c.shutWrR
  {
    var l2r := Source([], chunk, true);
    var r2l := Source(answer, chunk, false);
    c := new Conn(0, 0, l2r, r2l, true, 0, chunk);
    LocalEnd(c, chunk);
  }

  /** An event of the local side that finds only the end. */
  method LocalEnd(c: Conn, chunk: nat)
    requires c.Valid(chunk) && !c.eofL2R && !c.eofR2L && c.lenL2R == 0 && c.lenR2L == 0
    requires AtEnd(c.l2r) && c.l2r.finIn && !c.r2l.CanFill()
    modifies c, c.l2r
    ensures c.Valid(chunk) && c.connecting == old(c.connecting) && c.setL && c.setR
    ensures c.shutWrR && c.lenL2R == 0 && c.rearmed
  {
    assert AtEnd(c.l2r);
    c.EndedL2R(0);
    c.l2r.Shutdown();
    c.shutWrR := true;
    assert !c.r2l.CanFill();
    var _ := c.Settle(chunk, true, true);
  }

  /** Push until the channel is full and one message has been refused. */
  method Overfill(log: Log, msg: Msg)
    requires log.Valid()
    modifies log`queue, log`accepted, log`refused, log`counting, log`sendDrops
    ensures log.Valid() && log.sendDrops > 0 && |log.accepted| >= LOG_QUEUE_MAX
    ensures log.Thrown() == old(log.Thrown())
  {
    var ok := true;
    while ok
      invariant log.Valid() && log.Thrown() == old(log.Thrown())
      invariant !ok ==> log.counting > 0 && |log.queue| == LOG_QUEUE_MAX
      decreases LOG_QUEUE_MAX - |log.queue|, ok
    {
      ok := log.TrySend(msg);
    }
    log.CountDrop();
  }

  /**
   Refused lines that no notice will ever report: the queue overflows, a flush uses up the quota, the
   queue overflows again, and the next flush comes within the same second.
   */
  method DropForgotten(rate: nat, msg: Msg) returns (log: Log)
    requires rate < LOG_QUEUE_MAX
    ensures log.Valid() && log.enabled && log.lost > 0
    ensures Reported(log.out) + log.dropped < log.Thrown() + log.refused
  {
    log := new Log(true, rate, 0);
    Overfill(log, msg);
    ghost var _ := log.MaybeFlush(1);
    log.Accounts();
    assert log.quota == 0;
    Overfill(log, msg);
    ghost var swapped := log.MaybeFlush(1);
    log.Accounts();
  }
}
