/**
 The zero-copy pump of relay-rs/src/main.rs: one direction of a connection, run against an
 arbitrary kernel.

 `Wire` is the kernel's side of a direction (source socket, pipe, sink socket).  The program sees
 none of it: it only sees the answers of `splice`, and it keeps the pipe's byte count in an integer
 of its own.
 */
module Pumping {
  type Byte = x: int | 0 <= x < 256

  /** What one `splice` call answers. */
  datatype Answer = Moved(n: nat) | Zero | Again | Intr | NoMem | Failed

  datatype PumpStatus = Ok | Eof | Err

  /** How often the kernel has given which kind of answer. */
  datatype Answers = Answers(again: nat, faults: nat, news: nat, broken: nat, ends: nat)

  /** What the kernel has answered so far, over all calls. */
  class Kernel {
    var retries: nat   // how many more EINTR and ENOMEM answers it will give
    var again: nat     // EAGAIN answers
    var faults: nat    // ENOMEM answers, errors, and zero-length drains of a non-empty pipe
    var news: nat      // times a socket became readier behind the program's back
    ghost var broken: nat   // the faults that the splice they answer takes for an error
    ghost var ends: nat     // zero-length fills, which tell the end of a stream

    constructor (budget: nat)
      ensures retries == budget && again == faults == news == broken == ends == 0
    {
      retries, again, faults, news, broken, ends := budget, 0, 0, 0, 0, 0;
    }

    ghost function Count(): Answers
      reads this
    {
      Answers(again, faults, news, broken, ends)
    }

    twostate predicate Later()
      reads this
    {
      && retries <= old(retries) && again >= old(again) && faults >= old(faults) && news >= old(news)
      && broken >= old(broken) && ends >= old(ends)
    }

    /** An answer the kernel is free to give whatever the sockets look like; ENOMEM breaks a drain only. */
    method Excuse(ghost drain: bool) returns (r: Answer)
      modifies this
      ensures Later() && news == old(news) && ends == old(ends)
      ensures broken == old(broken) + (if r.Failed? || (r.NoMem? && drain) then 1 else 0)
      ensures r.Intr? || r.NoMem? || r.Failed?
      ensures r.Intr? || r.NoMem? ==> retries < old(retries)
      ensures again == old(again)
      ensures faults == old(faults) + (if r.Intr? then 0 else 1)
    {
      r := Failed;
      if retries > 0 {
        if * {
          r, retries := Intr, retries - 1;
        } else if * {
          r, retries := NoMem, retries - 1;
        }
      }
      if !r.Intr? {
        faults := faults + 1;
      }
      if r.Failed? || (r.NoMem? && drain) {
        broken := broken + 1;
      }
    }
  }

  class Wire {
    const stream: seq<Byte>   // every byte the source's peer sends before its FIN
    const cap: nat            // capacity of the pipe
    ghost const owner: nat    // the number of the connection it serves
    var unread: seq<Byte>     // not yet spliced out of the source socket
    var pipe: seq<Byte>
    var sent: seq<Byte>       // spliced into the sink socket
    var arrived: nat          // how many of the unread bytes have reached the source socket
    var finIn: bool           // the peer's FIN has reached the source socket
    var room: nat             // what the sink socket would still accept
    var finAt: seq<nat>       // |sent| at every shutdown(SHUT_WR) of the sink
    var lastFill: Answer

    /** The pipe keeps the order of the stream: nothing is lost, duplicated or reordered. */
    ghost predicate Sound()
      reads this
    {
      && stream == sent + pipe + unread
      && arrived <= |unread|
      && (finIn ==> arrived == |unread|)
      && 0 < cap
    }

    constructor (stream: seq<Byte>, cap: nat, ghost owner: nat)
      requires cap > 0
      ensures Sound() && this.stream == stream && this.cap == cap && this.owner == owner
      ensures unread == stream && pipe == [] && sent == [] && finAt == []
      ensures arrived == room == 0 && !finIn
    {
      this.stream, this.cap, this.owner := stream, cap, owner;
      unread, pipe, sent, finAt := stream, [], [], [];
      arrived, finIn, room, lastFill := 0, false, 0, Again;
    }

    predicate CanFill()
      reads this
    {
      |pipe| < cap && (arrived > 0 || (finIn && unread == []))
    }

    /** Some splice of this direction could do something, given the program's counter and flag. */
    predicate CanMove(chunk: nat, eof: bool)
      reads this
    {
      (!eof && |pipe| < chunk && CanFill()) || (pipe != [] && room > 0)
    }

    /** The splices still to be done: every byte moved by any splice lowers it. */
    ghost function Work(): nat
      reads this
    {
      2 * |unread| + |pipe|
    }

    twostate predicate Readier(k: Kernel)
      reads this, k
    {
      && (old(finIn) ==> finIn) && old(arrived) <= arrived && old(room) <= room
      && (k.news == old(k.news) ==> finIn == old(finIn) && arrived == old(arrived) && room == old(room))
    }

    /** More data, a FIN or acknowledgements come in. */
    method Arrive(more: nat, fin: bool, space: nat)
      requires Sound() && arrived + more <= |unread|
      modifies `arrived, `finIn, `room
      ensures Sound() && arrived == old(arrived) + more && room == old(room) + space
      ensures finIn <==> old(finIn) || (fin && arrived == |unread|)
    {
      arrived, room := arrived + more, room + space;
      finIn := finIn || (fin && arrived == |unread|);
    }

    /** Bytes move from the source socket to the end of the pipe. */
    method Load(n: nat)
      requires Sound() && n <= arrived && n <= cap - |pipe|
      modifies `unread, `pipe, `arrived
      ensures Sound() && pipe == old(pipe) + old(unread)[..n] && unread == old(unread)[n..]
      ensures arrived == old(arrived) - n
    {
      assert unread == unread[..n] + unread[n..];
      assert sent + (pipe + unread[..n]) + unread[n..] == sent + pipe + (unread[..n] + unread[n..]);
      pipe, unread, arrived := pipe + unread[..n], unread[n..], arrived - n;
    }

    /** Bytes move from the front of the pipe into the sink socket. */
    method Deliver(n: nat)
      requires Sound() && n <= |pipe| && n <= room && finAt == []
      modifies `pipe, `sent, `room
      ensures Sound() && sent == old(sent) + old(pipe)[..n] && pipe == old(pipe)[n..] && room == old(room) - n
    {
      assert pipe == pipe[..n] + pipe[n..];
      assert (sent + pipe[..n]) + pipe[n..] + unread == sent + (pipe[..n] + pipe[n..]) + unread;
      sent, pipe, room := sent + pipe[..n], pipe[n..], room - n;
    }

    /** More data, a FIN or an acknowledgement may come in at any time. */
    method Network(k: Kernel)
      requires Sound()
      modifies `arrived, `finIn, `room, k`news
      ensures Sound() && Readier(k) && k.news >= old(k.news)
    {
      if * {
        k.news := k.news + 1;
        var more: nat, space: nat, fin: bool := *, *, *;
        Arrive(if arrived + more <= |unread| then more else 0, fin, space);
      }
    }

    /** splice(src, pipe_w, want) */
    method Fill(k: Kernel, want: nat) returns (r: Answer)
      requires Sound() && want > 0
      modifies `unread, `pipe, `arrived, `finIn, `room, `lastFill, k
      ensures Sound() && k.Later() && lastFill == r
      ensures r.Intr? || r.NoMem? ==> k.retries < old(k.retries)
      ensures k.again == old(k.again) + (if r.Again? then 1 else 0)
      ensures k.faults == old(k.faults) + (if r.NoMem? || r.Failed? then 1 else 0)
      ensures k.broken == old(k.broken) + (if r.Failed? then 1 else 0)
      ensures k.ends == old(k.ends) + (if r.Zero? then 1 else 0)
      ensures r.Moved? ==> 1 <= r.n <= want && r.n <= |old(unread)|
      ensures r.Moved? ==> pipe == old(pipe) + old(unread)[..r.n] && unread == old(unread)[r.n..]
      ensures !r.Moved? ==> pipe == old(pipe) && unread == old(unread) && Readier(k)
      ensures r.Zero? ==> unread == [] && finIn
      ensures old(finIn) ==> finIn
      ensures r.Moved? || r.Zero? ==> k.news > old(k.news) || old(CanFill())
      ensures r.Again? ==> !CanFill()
      ensures room >= old(room)
      ensures k.news == old(k.news) ==> room == old(room)
    {
      Network(k);
      var most := if arrived <= cap - |pipe| then arrived else cap - |pipe|;
      var n: nat, ended: bool, blocked: bool := *, *, *;
      if 1 <= n <= want && n <= most {
        r := Moved(n);
        Load(n);
      } else if CanFill() && arrived == 0 && ended {
        r, k.ends := Zero, k.ends + 1;
      } else if !CanFill() && blocked {
        r, k.again := Again, k.again + 1;
      } else {
        r := k.Excuse(false);
      }
      lastFill := r;
    }

    /** splice(pipe_r, dst, want); `strict` is whether the caller takes an answer of zero bytes for an error. */
    method Drain(k: Kernel, want: nat, ghost strict: bool) returns (r: Answer)
      requires Sound() && 0 < want <= |pipe|
      requires finAt == []   // never into a socket whose write half is shut
      modifies `pipe, `sent, `arrived, `finIn, `room, k
      ensures Sound() && k.Later()
      ensures r.Intr? || r.NoMem? ==> k.retries < old(k.retries)
      ensures k.again == old(k.again) + (if r.Again? then 1 else 0)
      ensures k.faults == old(k.faults) + (if r.NoMem? || r.Failed? || r.Zero? then 1 else 0)
      ensures k.broken == old(k.broken) + (if r.NoMem? || r.Failed? || (r.Zero? && strict) then 1 else 0)
      ensures k.ends == old(k.ends)
      ensures r.Moved? ==> 1 <= r.n <= want
      ensures r.Moved? ==> sent == old(sent) + old(pipe)[..r.n] && pipe == old(pipe)[r.n..]
      ensures !r.Moved? ==> sent == old(sent) && pipe == old(pipe) && Readier(k)
      ensures r.Moved? ==> k.news > old(k.news) || old(room) > 0
      ensures r.Again? ==> room == 0
      ensures old(arrived) <= arrived && (old(finIn) ==> finIn)
      ensures k.news == old(k.news) ==> arrived == old(arrived) && finIn == old(finIn)
    {
      Network(k);
      var n: nat, blocked: bool := *, *;
      if 1 <= n <= want && n <= room {
        r := Moved(n);
        Deliver(n);
      } else if room == 0 && blocked {
        r, k.again := Again, k.again + 1;
      } else if * {
        r, k.faults := Zero, k.faults + 1;
        k.broken := k.broken + (if strict then 1 else 0);
      } else {
        r := k.Excuse(true);
      }
    }

    /** shutdown(dst, SHUT_WR) */
    method Shutdown()
      modifies `finAt
      ensures finAt == old(finAt) + [|sent|]
    {
      finAt := finAt + [|sent|];
    }
  }

  /** Everything a caller may rely on when a direction has been worked on, whatever the outcome. */
  twostate predicate Carried(w: Wire, k: Kernel, len: nat, last: nat, now: nat, last0: nat)
    reads w, k
  {
    && w.Sound() && k.Later()
    && len == |w.pipe|
    && old(w.sent) <= w.sent && |w.unread| <= |old(w.unread)| && (old(w.finIn) ==> w.finIn)
    && w.Work() <= old(w.Work())
    && last == (if w.Work() < old(w.Work()) then now else last0)
  }

  /** Why a fill or drain loop stopped. */
  datatype Stop = Done | Blocked | AtEof | ShortOfMemory | Stalled | Broken

  /** The fill loop: splice until the counter reaches the chunk or the source has nothing to give. */
  method FillPipe(w: Wire, k: Kernel, len0: nat, chunk: nat, now: nat, last0: nat)
    returns (stop: Stop, len: nat, last: nat)
    requires w.Sound() && len0 == |w.pipe| <= chunk
    modifies w`unread, w`pipe, w`arrived, w`finIn, w`room, w`lastFill, k
    ensures Carried(w, k, len, last, now, last0)
    ensures len0 <= len <= chunk && w.Work() == old(w.Work()) - (len - len0)
    ensures !stop.Stalled?
    ensures stop.Done? ==> len == chunk
    ensures stop.AtEof? ==> w.unread == [] && w.finIn
    ensures stop.Blocked? ==> w.lastFill.Again?
    ensures stop.Blocked? <==> k.again > old(k.again)
    ensures stop.ShortOfMemory? || stop.Broken? <==> k.faults > old(k.faults)
    ensures stop.Broken? <==> k.broken > old(k.broken)
    ensures k.ends == old(k.ends) + (if stop.AtEof? then 1 else 0)
    ensures k.retries <= old(k.retries) - (if stop.ShortOfMemory? then 1 else 0)
    ensures w.room >= old(w.room) && (k.news == old(k.news) ==> w.room == old(w.room))
    ensures old(w.CanFill()) && len0 < chunk ==> len > len0 || stop.AtEof? || k.faults > old(k.faults)
    ensures !(old(w.CanFill()) && len0 < chunk) && k.news == old(k.news) ==>
              len == len0 && !stop.AtEof? && (len0 < chunk ==> !w.CanFill())
  {
    len, last, stop := len0, last0, Done;
    while len < chunk
      invariant Carried(w, k, len, last, now, last0)
      invariant len0 <= len <= chunk && w.Work() == old(w.Work()) - (len - len0)
      invariant k.again == old(k.again) && k.faults == old(k.faults)
      invariant k.broken == old(k.broken) && k.ends == old(k.ends)
      invariant w.room >= old(w.room) && (k.news == old(k.news) ==> w.room == old(w.room))
      invariant old(w.CanFill()) && len0 < chunk ==> len > len0 || w.CanFill()
      invariant !(old(w.CanFill()) && len0 < chunk) && k.news == old(k.news) ==>
                  len == len0 && (len0 < chunk ==> !w.CanFill())
      decreases w.Work(), k.retries
    {
      var r := w.Fill(k, chunk - len);
      match r
      case Moved(n) => len, last := len + n, now;
      case Zero => return AtEof, len, last;
      case Again => return Blocked, len, last;
      case Intr =>
      case NoMem => return ShortOfMemory, len, last;
      case Failed => return Broken, len, last;
    }
  }

  /** The drain loop: splice until the pipe is empty or the sink takes no more. */
  method DrainPipe(w: Wire, k: Kernel, len0: nat, now: nat, last0: nat, ghost strict: bool)
    returns (stop: Stop, len: nat, last: nat)
    requires w.Sound() && len0 == |w.pipe| && (len0 > 0 ==> w.finAt == [])
    modifies w`pipe, w`sent, w`arrived, w`finIn, w`room, k
    ensures Carried(w, k, len, last, now, last0)
    ensures len <= len0 && w.Work() == old(w.Work()) - (len0 - len)
    ensures !stop.AtEof? && !stop.ShortOfMemory?
    ensures stop.Done? <==> len == 0
    ensures stop.Blocked? ==> k.again > old(k.again)
    ensures stop.Stalled? || stop.Broken? <==> k.faults > old(k.faults)
    ensures stop.Broken? || (stop.Stalled? && strict) <==> k.broken > old(k.broken)
    ensures k.ends == old(k.ends)
    ensures k.again == old(k.again) && k.faults == old(k.faults) ==> len == 0
    ensures old(w.room) > 0 && len0 > 0 ==> len < len0 || k.faults > old(k.faults)
    ensures old(w.room) == 0 && k.news == old(k.news) ==> len == len0
    ensures k.news == old(k.news) ==>
              w.arrived == old(w.arrived) && w.finIn == old(w.finIn) && (len == len0 ==> w.room == old(w.room))
  {
    len, last := len0, last0;
    while len > 0
      invariant Carried(w, k, len, last, now, last0)
      invariant len <= len0 && w.Work() == old(w.Work()) - (len0 - len)
      invariant k.again == old(k.again) && k.faults == old(k.faults)
      invariant k.broken == old(k.broken) && k.ends == old(k.ends)
      invariant old(w.room) > 0 ==> len < len0 || w.room > 0
      invariant old(w.room) == 0 && k.news == old(k.news) ==> len == len0
      invariant k.news == old(k.news) ==>
                  w.arrived == old(w.arrived) && w.finIn == old(w.finIn) && (len == len0 ==> w.room == old(w.room))
      decreases len, k.retries
    {
      var r := w.Drain(k, len, strict);
      match r
      case Moved(n) => len, last := len - n, now;
      case Again => return Blocked, len, last;
      case Intr =>
      case NoMem => return Broken, len, last;
      case Failed => return Broken, len, last;
      case Zero => return Stalled, len, last;
    }
    stop := Done;
  }

  /** `pump`: fill the pipe from the source, drain it into the sink, until one of them blocks. */
  method Pump(w: Wire, k: Kernel, len0: nat, chunk: nat, now: nat, last0: nat)
    returns (st: PumpStatus, len: nat, last: nat)
    requires w.Sound() && len0 == |w.pipe| <= chunk && chunk > 0 && w.finAt == []
    modifies w`unread, w`pipe, w`sent, w`arrived, w`finIn, w`room, w`lastFill, k
    ensures Carried(w, k, len, last, now, last0) && len <= chunk
    ensures st.Eof? ==> w.unread == [] && w.finIn
    ensures st.Ok? ==> len > 0 || w.lastFill.Again?
    // The status is told by the answers: an error, the end of the stream, or neither.
    ensures st.Err? <==> k.broken > old(k.broken)
    ensures k.broken == old(k.broken) ==> k.ends == old(k.ends) + (if st.Eof? then 1 else 0)
    ensures st.Err? ==> k.faults > old(k.faults)
    // With a willing kernel one call carries the whole stream.
    ensures k.again == old(k.again) && k.faults == old(k.faults) ==> st.Eof? && len == 0
    // What could move does move, and nothing else does.
    ensures old(w.CanMove(chunk, false)) && k.faults == old(k.faults) ==> w.Work() < old(w.Work()) || st.Eof?
    ensures !old(w.CanMove(chunk, false)) && k.news == old(k.news) ==> w.Work() == old(w.Work()) && !st.Eof?
  {
    len, last := len0, last0;
    ghost var first := true;
    while true
      invariant Carried(w, k, len, last, now, last0) && len <= chunk
      invariant if first then unchanged(w) && unchanged(k)
                else w.Work() < old(w.Work()) || k.faults > old(k.faults)
      invariant k.broken == old(k.broken) && k.ends == old(k.ends)
      invariant !old(w.CanMove(chunk, false)) && k.news == old(k.news) ==>
                  w.Work() == old(w.Work()) && !w.CanMove(chunk, false)
      decreases w.Work(), k.retries
    {
      first := false;
      var fill, drain: Stop;
      fill, len, last := FillPipe(w, k, len, chunk, now, last);
      if fill.Broken? {
        return Err, len, last;
      }
      drain, len, last := DrainPipe(w, k, len, now, last, false);
      if drain.Broken? {
        return Err, len, last;
      }
      if fill.AtEof? || len > 0 || fill.Blocked? {
        return if fill.AtEof? then Eof else Ok, len, last;
      }
    }
  }
}
