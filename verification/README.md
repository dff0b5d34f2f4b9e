# A Dafny model of tcp-udp-relay's core

`relay-rs` accepts TCP clients and UDP datagrams and forwards them to one remote server. This project
models the parts of it that carry state and proves what they keep, over all inputs, all answers of the
kernel and all interleavings of its threads.

| file | what it models |
|---|---|
| `Pump.dfy` | the zero-copy pump against an arbitrary kernel: a ghost stream per direction, `splice` as a nondeterministic answer |
| `Connection.dfy` | one connection: the event handler, half-close, `conn_watch` |
| `Tokens.dfy`, `Generations.dfy`, `Slab.dfy`, `ConnTable.dfy` | the epoll token space, the 16-bit generations, the slab of connections |
| `UdpTable.dfy` | hash map, slots and free list of the UDP associations, as one map |
| `EventLoop.dfy` | the table of connections under accepts, events and the 1 Hz cleanup |
| `History.dfy` | runs of the event loop from outside: what each step does to the server, and what no run undoes |
| `Server.dfy` | dispatch by token, one turn of the loop, any run of it |
| `Jitter.dfy` | the xorshift generator and the jittered time-to-live |
| `PoolModel.dfy`, `Pool.dfy` | each lock-held region of the preconnection pool, as a function and as the method that computes it |
| `PoolProtocol.dfy`, `PoolSafety.dfy`, `PoolRefill.dfy` | the pool as a transition system of main thread, maintainer and workers |
| `PoolChecks.dfy`, `PoolAlone.dfy` | what the liveness checks mean over all runs; the protocol's threads, undisturbed, against the sequential calls |
| `Logger.dfy` | the rate-limited logger and its drop accounting |
| `Witnesses.dfy` | states that the program reaches although it should not, each with the answers that lead there |
| `Wrappers.dfy` | an option type and saturating subtraction |

## How to read it

The kernel's side of a direction is a `Wire`: the bytes delivered, those in the pipe, those not yet read.
`Wire.Sound` says that these three, one after the other, are the stream: nothing lost, duplicated or
reordered. The relay never looks at a `Wire`; it sees the answers of `splice` and keeps its own counters,
and `Tracks` says that the counters are right. `Kernel` counts the answers given so far, so that a
contract can say "if the kernel answered no EAGAIN and no error since", or "if and only if some answer
counted as an error". Between any two answers data, a FIN or buffer space may come in.

An event is described by `Handled`, a relation between the `Status` of the connection before and after
it. `Relay.Valid` is the invariant of the loop: every connection ever accepted is either in the slab,
with both directions sound, or in a *grave* that records what was delivered and why it ended.

A `World` is the server at one moment as a plain value: the status of every connection, the graves, the
associations. `Follows` says what handling one report, or one cleanup, does to it, including which
connection an event reaches and how that one handles it. The methods of `Server` carry a ghost `Trace` of
worlds and deeds; their contracts are that each step they add to it is legal and that the trace ends with
the server as it then is. So a method that skipped a report could not produce its trace. What holds of
legal traces (`TracePersists`) therefore holds of every run.

In the pool, `PoolModel` says what each lock-held region does, `Pools.PoolObject` computes exactly that
on mutable fields with the loops of the source, and `PoolProtocol` interleaves the same functions.

## What the proofs found

1. The comment above `conn_watch` says that suppressing EPOLLIN behind a full chunk ends the busy loop.
   While a sink is congested there remain three conditions under which a socket is reported although
   nothing can be done, and `Connection.WakeUpExact` says that there is no other: a FIN waits behind a
   full chunk, because EPOLLRDHUP stays armed (`main.rs:227-236`); something waits behind a full pipe
   that is smaller than a chunk (allowed by `config.rs:242-247`); or a direction at its end still has
   bytes to deliver while the opposite one is already shut, because the source's socket is then down both
   ways and EPOLLHUP is reported without being armed. `Witnesses.FinSpin` and `Witnesses.HangupSpin`
   reach the first and the last; in the last nothing at all is armed on that socket.
2. A local event is pumped even while the connect is in progress, and `conn_watch` then takes EPOLLOUT
   off the remote socket unless bytes were left in the pipe (`Connection.ConnectNoticed`, an if and only
   if). A client that half-closes early without sending leaves its FIN on a socket that is not connected
   yet and whose writability nobody waits for (`Witnesses.EarlyFin`); on Linux that `shutdown` also
   aborts the connect, so the connection ends instead of being relayed half-closed.
3. The refill below `pool_min_size` ignores `pending`, so ticks pile up requests without bound.
   `PoolSafety.OvershootBoundedIff`: the overshoot is bounded on all runs if and only if
   `pool_min_size` is 0. The bound is then `pool_size + min(pool_size, 4) - 1` (and 0 for an empty
   pool), and every configuration has a run that reaches it (`PoolRefill.OvershootTight`); so the
   overshoot is 3 if and only if `pool_size` is at least 4.
4. The generation counter comes round: 65536 connections later a stale token is accepted
   (`Generations.StaleEventsReturn`); with fewer it never is (`Generations.StaleEventsDie`).
5. Refused log lines that are swapped out of `SEND_DROPS` while the quota is used up are never reported
   (`Logger.Log.Accounts` says when the reported count is exact, as an if and only if;
   `Witnesses.DropForgotten` loses some at any rate below the size of the queue).
6. The jittered time-to-live stays in its percentage if and only if the sum fits 64 bits
   (`Jitter.TtlBounds`); `Config::validate` does not bound `preconnect_ttl_ms` from above.
7. Token decoding is exact if and only if the slab index fits 47 bits (`Tokens.DecodeEncode`), and a TCP
   slot is routed to itself in every generation if and only if no UDP slot sits at the number its
   generation-zero tokens spell (`Tokens.TcpTokensRouted`).

## Model

| member | source | states |
|---|---|---|
| `Pumping.Wire.Fill` | relay-rs/src/main.rs:131-149 | what a `splice` from the source may answer: a non-empty prefix of the unread bytes moves to the end of the pipe, or nothing moves; EAGAIN only if the source is empty or the pipe full; 0 only after the last byte |
| `Pumping.Wire.Drain` | relay-rs/src/main.rs:153-164 | what a `splice` into the sink may answer; it is never asked of a sink whose write half is shut |
| `Pumping.FillPipe` | relay-rs/src/main.rs:129-149 | the fill loop ends; the counter stays the pipe's byte count and within the chunk; why it stopped, and whether it moved anything |
| `Pumping.DrainPipe` | relay-rs/src/main.rs:826-851 | the drain loop, also that of the residual drains: it ends with an empty pipe, a congested sink or a fault; bytes leave the pipe in order |
| `Pumping.Pump` | relay-rs/src/main.rs:109-179 | terminates on any finite source; keeps the streams; Err if and only if some splice was given an answer it takes for an error, else Eof if and only if a fill reported the end, else Ok; Ok only with bytes in the pipe or after EAGAIN; moves something exactly when something could move; with a willing kernel carries the whole stream |
| `Connection.ServeDirection` | relay-rs/src/main.rs:793-856 | one direction of an event: bytes in order, counters exact, an EOF recorded exactly when the kernel reports one, failure exactly on an answer taken for an error (in a residual drain also an answer of zero bytes), the FIN passed on at most once and only after the last byte, nothing moved once the sink is shut |
| `Connection.Conn.constructor` | relay-rs/src/main.rs:497-546 | a fresh connection satisfies the invariant with the flags of its first registration |
| `Connection.Conn.Watch` | relay-rs/src/main.rs:223-264 | the armed flags are those that eof and pipe lengths call for, on each socket whose modify request is granted |
| `Connection.Conn.EndedL2R` | relay-rs/src/main.rs:811-817 | the first EOF starts the half-close clock, the second stops it |
| `Connection.Conn.EndedR2L` | relay-rs/src/main.rs:876-882 | the same for the remote side |
| `Connection.Conn.ServeL2R` | relay-rs/src/main.rs:793-856 | the local-to-remote half keeps the invariant of both directions and the clock |
| `Connection.Conn.ServeR2L` | relay-rs/src/main.rs:858-925 | the remote-to-local half does the same |
| `Connection.Conn.ServeBoth` | relay-rs/src/main.rs:793-925 | the two halves together: undelivered bytes never increase, fall whenever some splice can move one, and do not change otherwise; a failed first half leaves the second untouched |
| `Connection.PumpedBoth` | relay-rs/src/main.rs:793-925 | the effects of the two halves compose to the effect of the event |
| `Connection.Conn.Settle` | relay-rs/src/main.rs:926-933 | "Fully Closed" is reached exactly when both write halves are shut, and then both streams were delivered whole; else both sockets are armed again |
| `Connection.Conn.Serve` | relay-rs/src/main.rs:793-933 | with a kernel that answers no EAGAIN and no fault one event delivers both streams and closes; progress is made exactly when some splice can make it; the connection fails exactly when a splice was given an answer it takes for an error |
| `Connection.Conn.FinishConnect` | relay-rs/src/main.rs:758-779 | a remote event of a connection in progress either is ignored, fails the connect, or completes it; it moves no byte |
| `Connection.Conn.Handle` | relay-rs/src/main.rs:757-933 | every event, local ones during a connect included: one of the three cases above, EPOLLERR closes at once, and a connection that lives on satisfies the invariant |
| `Connection.WakeUpExact` | relay-rs/src/main.rs:227-252 | at rest, some socket is reported (EPOLLERR and EPOLLHUP included, which cannot be disarmed) if and only if it has failed, some splice can move something, or a direction spins: nothing stalls, and nothing else is reported |
| `Connection.SpinsOnlyOnFin` | relay-rs/src/main.rs:215-236 | with a pipe that holds a chunk, a direction spins if and only if its sink is congested and a FIN waits behind a full chunk or the source's socket is down both ways |
| `Connection.ConnectNoticed` | relay-rs/src/main.rs:758-779 | while connecting, writability of the remote socket is armed if and only if no local event has been served or one left bytes in the pipe |
| `Connection.ConnectResolved` | relay-rs/src/main.rs:504-517 | whatever the level-triggered registration of a connect in progress reports makes the handler ask how the connect went, so no such report repeats |
| `Tokens.EncodeLayout` | relay-rs/src/main.rs:88-90 | the bitwise encoding is the sum of three disjoint fields |
| `Tokens.DecodeEncode` | relay-rs/src/main.rs:88-96 | decoding undoes encoding if and only if the index fits 47 bits |
| `Tokens.TokensDistinct` | relay-rs/src/main.rs:88-90 | tokens are equal if and only if generation, slot and side are |
| `Tokens.SpecialTokensRouted` | relay-rs/src/main.rs:79-82 | the accept socket, the UDP listener and every UDP slot are routed to themselves |
| `Tokens.TcpTokensRouted` | relay-rs/src/main.rs:701-755 | a TCP slot is routed to itself in every generation if and only if its index is below 2^25 or no UDP slot has the number it spells |
| `Generations.RecordedAfterPlace` | relay-rs/src/main.rs:519-542 | a slot always holds the latest of the allocations it was given |
| `Generations.AcceptedIffCongruent` | relay-rs/src/main.rs:751-755 | a token of allocation n is accepted if and only if its slot holds an allocation congruent to n modulo 65536 |
| `Generations.StaleEventsDie` | relay-rs/src/main.rs:84-96 | with at most 65536 allocations since and including n, a token of n reaches n or nobody |
| `Generations.StaleEventsReturn` | relay-rs/src/main.rs:519-520 | one allocation more and the stale token is accepted |
| `Generations.LiveTokensDistinct` | relay-rs/src/main.rs:545-546 | tokens of live connections coincide only if slot and side do |
| `Slabs.Slab.Alloc` | relay-rs/src/main.rs:277-286 | reuses the slot that has been empty longest, else grows; the free list stays exactly the empty slots without repetition, and the vector never outgrows the peak number of live connections |
| `Slabs.Slab.Free` | relay-rs/src/main.rs:288-291 | empties one slot and queues it; the same invariant |
| `Slabs.LiveCount` | relay-rs/src/main.rs:277-291 | occupied slots and queued slots add up to the length of the vector |
| `Slabs.SweptAt` | relay-rs/src/main.rs:941-982 | the pass frees the doomed slots it reached and leaves every other slot alone |
| `ConnTables.ConnTable.Insert` | relay-rs/src/main.rs:519-542 | the wrapping 16-bit counter and the slot agree with the unbounded allocation count |
| `ConnTables.ConnTable.Find` | relay-rs/src/main.rs:751-755 | an event reaches the occupied slot of its generation, or nobody |
| `UdpTables.UdpTable.Find` | relay-rs/src/main.rs:626-648 | the map, or the scan for addresses without a key, finds the one slot of that client |
| `UdpTables.UdpTable.Receive` | relay-rs/src/main.rs:626-692 | the three collections behave as one map from clients to associations, also when no socket can be made or epoll refuses it; the datagram goes out through the slot of its own client |
| `UdpTables.ClientsAgree` | relay-rs/src/sock.rs:161-205 | two addresses are the same client if and only if family, address and port agree, whatever flow label and scope, or, in other families, all bytes |
| `UdpTables.UdpTable.OneSlotEach` | relay-rs/src/main.rs:626-692 | two addresses are served by the same slot if and only if they are the same client |
| `UdpTables.ReceivedMeans` | relay-rs/src/main.rs:626-692 | a client heard from has an association if it had one or a registered socket could be made; it keeps its socket and carries the time; nobody else is affected |
| `UdpTables.HeardStays` | relay-rs/src/main.rs:984-1000 | a client just heard from expires exactly when it then stays silent beyond the timeout |
| `UdpTables.RecentMeans` | relay-rs/src/main.rs:984-989 | which associations an expiry keeps, in terms of the last activity |
| `UdpTables.UdpTable.ReceiveAll` | relay-rs/src/main.rs:615-692 | a batch is its datagrams one after the other on that map |
| `UdpTables.UdpTable.Answered` | relay-rs/src/main.rs:701-746 | an answer stamps the association of its slot and nothing else |
| `UdpTables.UdpTable.Remove` | relay-rs/src/main.rs:990-1000 | a removed association leaves map, slots and free list in agreement |
| `UdpTables.UdpTable.Expire` | relay-rs/src/main.rs:984-1000 | exactly the associations idle beyond the timeout go |
| `EventLoop.Relay.Bury` | relay-rs/src/main.rs:288-291 | freeing a slot moves its connection to its grave with what was delivered, leaving all others as they were |
| `EventLoop.Relay.Admit` | relay-rs/src/main.rs:455-592 | a client gets a slot exactly when there is a remote and pipes, both sockets register, and the connect has not failed at once; all its clocks start now and nothing has moved; connections that fail are not kept, and no other is touched |
| `EventLoop.Relay.AdmitAll` | relay-rs/src/main.rs:455-592 | the accept loop: as many connections as clients that can be given one, each new one freshly set up for such a client, and those that were there as they were |
| `EventLoop.Relay.OnTcpEvent` | relay-rs/src/main.rs:750-934 | only the connection the token reaches is touched; it handles the event, and lives on or is buried with its outcome |
| `EventLoop.Relay.EveryConnection` | relay-rs/src/main.rs:519-546 | every connection ever built is live, sound and reachable, or in a truthful grave; never both |
| `EventLoop.Relay.StaleEvent` | relay-rs/src/main.rs:84-96 | a token reaches its own connection for as long as that lives, however many were built since; after that nobody, until 65536 more were built |
| `EventLoop.Relay.SweepSlot` | relay-rs/src/main.rs:941-982 | one step of the non-incrementing loop |
| `EventLoop.Relay.Sweep` | relay-rs/src/main.rs:940-982 | the loop ends and frees exactly the slots of the connections past a limit, each into its own grave |
| `EventLoop.Relay.Cleanup` | relay-rs/src/main.rs:937-982 | a connection stays if and only if it is within its connect, idle and half-close limits; those that went timed out with what they had delivered, and no other is touched |
| `EventLoop.LimitsMean` | relay-rs/src/main.rs:942-973 | the three limits, spelled out in terms of what has to be over and for how long |
| `EventLoop.GraceExact` | relay-rs/src/main.rs:532-540 | a connection just accepted is past a limit exactly when its connect or idle limit has run out since |
| `EventLoop.MovingStays` | relay-rs/src/main.rs:950-969 | a connection that has just moved a byte can only fall to its half-close clock, and one that has just half-closed exactly when that limit has run out |
| `Servers.Server.OwnEvents` | relay-rs/src/main.rs:84-96 | dispatch end to end: through the if-chain and the slab a connection receives its own events for as long as it lives, if at most 2^25 connections were ever alive at once |
| `Servers.Server.Dispatch` | relay-rs/src/main.rs:449-934 | each report is one legal step: it reaches the party its token belongs to, with the effect stated for that party, and nobody else changes |
| `Servers.Server.Turn` | relay-rs/src/main.rs:430-1000 | the reports of one `epoll_wait` as legal steps, each once and in order, then the cleanup if one is due |
| `Servers.Server.Housekeep` | relay-rs/src/main.rs:936-1000 | at most once a second; as a legal step it removes everything past a limit on both sides and nothing else |
| `Servers.Server.Run` | relay-rs/src/main.rs:430-1000 | any number of turns as legal steps; over all of it what each connection has delivered only extends, undelivered work never grows, a shut direction is never touched again, and graves never change |
| `History.FollowsPersists` | relay-rs/src/main.rs:449-1000 | no single step takes back what was delivered, adds work, touches a shut direction or changes a grave |
| `History.TracePersists` | relay-rs/src/main.rs:430-1000 | nor does any stretch of any run; a connection that is gone lies in a grave with at least what it had delivered |
| `Jitter.RngBijective` | relay-rs/src/pool.rs:51-56 | the generator permutes the 64-bit words; its inverse is given |
| `Jitter.RngOfOne` | relay-rs/src/pool.rs:51-56 | where a single bit goes, which fixes the three shifts |
| `Jitter.ValueExact` | relay-rs/src/pool.rs:62 | different words have different values |
| `Jitter.RngNonzero` | relay-rs/src/pool.rs:51-56 | the result is zero if and only if the state was |
| `Jitter.SpreadBounds` | relay-rs/src/pool.rs:58-63 | the saturating subtraction never saturates, and the upper end of the spread is reached |
| `Jitter.TtlBounds` | relay-rs/src/pool.rs:58-63 | every random word gives a time-to-live within the percentage if and only if the top of the spread fits 64 bits |
| `Jitter.TtlReaches` | relay-rs/src/pool.rs:58-63 | the words reach every whole number of the spread, and no other |
| `Pools.PoolObject.Put` | relay-rs/src/pool.rs:65-78 | accepted exactly while there is room, at the end, with a time-to-live within the configured spread; a refused socket leaves entries and generator as they were |
| `Pools.PoolObject.PopBatch` | relay-rs/src/pool.rs:82-89 | the last n entries, in order |
| `Pools.PoolObject.Check` | relay-rs/src/pool.rs:110-124 | the first live entry within its time is taken, those before it are closed and were each dead or too old, those after it are kept unchecked |
| `Pools.PoolObject.GiveBack` | relay-rs/src/pool.rs:126-136 | as many entries as there is room for go back, in order; the surplus is closed; nothing is when all fit |
| `Pools.PoolObject.TakeBatch` | relay-rs/src/pool.rs:103-142 | one round of the loop: either the whole search is over, or what remains of the search is the search of the smaller pool |
| `Pools.PoolObject.TakeLive` | relay-rs/src/pool.rs:99-143 | what is handed out is alive and within its time; everything closed was dead or too old; None if and only if every entry was; and the loop computes the recursive specification |
| `Pools.PoolObject.SweepOut` | relay-rs/src/pool.rs:188-197 | the sweep keeps the live entries of its batch in order and closes the dead ones |
| `Pools.PoolObject.Tick` | relay-rs/src/pool.rs:200-251 | the maintainer's lock-held region computes the function the protocol interleaves |
| `Pools.PoolObject.Refill` | relay-rs/src/pool.rs:226-251 | how many requests are sent, also when the channel refuses one; `pending` grows by exactly those |
| `Pools.PoolObject.Retain` | relay-rs/src/pool.rs:212-224 | the entries within their time-to-live, in order |
| `Pools.PoolObject.ConnectSuccess` | relay-rs/src/pool.rs:304-321 | counts exactly one request off, ends the streak and any pause, and admits the socket under the same conditions |
| `Pools.PoolObject.ConnectFail` | relay-rs/src/pool.rs:323-332 | counts exactly one request off and leaves the entries; a streak as long as a batch pauses the refills for 200 ms a failure, at most 5 s |
| `PoolModel.TakeLiveComplete` | relay-rs/src/pool.rs:99-143 | nothing is found if and only if no entry is both alive and unexpired; what is found is usable; what is closed was not |
| `PoolModel.TakeLivePlace` | relay-rs/src/pool.rs:99-143 | the entry is the first usable one of the last batch of four that has one; what is left is all before that batch and what follows in it |
| `PoolModel.RestoreMeans` | relay-rs/src/pool.rs:128-136 | giving back loses nothing, keeps the order, and leaves a surplus only when the pool is full |
| `PoolModel.PartitionMeans` | relay-rs/src/pool.rs:212-224 | a rotation keeps exactly the entries within their time |
| `PoolModel.PartitionConcat` | relay-rs/src/pool.rs:212-224 | and it keeps their order |
| `PoolModel.RenewMeans` | relay-rs/src/pool.rs:200-224 | survivors of the sweep go back as far as there is room; after a rotation none is past its time, and nothing else is lost |
| `PoolModel.WantedExact` | relay-rs/src/pool.rs:226-243 | a tick asks for the largest number of connects that no pause, batch, target or steady-state pace speaks against |
| `PoolProtocol.PlacesConserved` | relay-rs/src/pool.rs:65-143 | no step of any thread loses, duplicates or invents a descriptor; opening one adds it |
| `PoolSafety.SizedStep` | relay-rs/src/pool.rs:160-332 | the pool is never over its size; `pending` is the queued requests plus the busy workers, so its saturating subtraction never saturates |
| `PoolSafety.RefillBounded` | relay-rs/src/pool.rs:226-243 | a refill never lifts entries and pending above the pool size |
| `PoolSafety.TotalStep` | relay-rs/src/pool.rs:99-251 | no step lifts entries, swept, pending and returnable together above `pool_size` plus one less than the most a taker can pop |
| `PoolSafety.RunSafe` | relay-rs/src/pool.rs:99-332 | every reachable state satisfies all of this |
| `PoolSafety.OneOwner` | relay-rs/src/pool.rs:99-332 | in every reachable state each opened descriptor is in exactly one place, and was handed to at most one client |
| `PoolSafety.NeverReturns` | relay-rs/src/pool.rs:99-332 | a descriptor closed or handed out never comes back to the pool, a worker, the sweep or the taker |
| `PoolSafety.HandedYoung` | relay-rs/src/pool.rs:113-121 | whatever was handed out was, when checked, no older than the configured spread allows |
| `PoolChecks.HandedAlive` | relay-rs/src/pool.rs:110-124 | in every run, whatever was handed out was found alive by a check of its own and was within its time then |
| `PoolChecks.DeadNeverHanded` | relay-rs/src/pool.rs:110-197 | a descriptor found dead by taker or sweep is closed, and is not handed out in any continuation |
| `PoolAlone.TakerAlone` | relay-rs/src/pool.rs:99-143 | undisturbed, the taker of the protocol hands out, closes and leaves exactly what the sequential call does |
| `PoolAlone.SweepAlone` | relay-rs/src/pool.rs:181-198 | undisturbed, the sweeper keeps the live entries of its batch in order and closes the others |
| `PoolSafety.OvershootBoundedIff` | relay-rs/src/pool.rs:226-251 | the overshoot is bounded on all runs if and only if `pool_min_size` is 0 |
| `PoolRefill.OvershootTight` | relay-rs/src/pool.rs:99-251 | for every validated configuration without a minimum size, a run that reaches the bound |
| `PoolRefill.FillUp` | relay-rs/src/pool.rs:173-251 | from the start some run fills the pool and leaves nothing to do |
| `PoolRefill.TickAsks` | relay-rs/src/pool.rs:226-251 | a tick on a pool with something missing asks for at least one connect and at most what is missing, whatever is pending |
| `PoolRefill.ConnectPhase` | relay-rs/src/pool.rs:256-321 | under any schedule of the workers successful connects turn pending requests into entries one for one; none is refused |
| `PoolRefill.WantedBetween` | relay-rs/src/pool.rs:226-243 | a tick below the pool size asks for at least one connect and for no more than are missing |
| `PoolRefill.RoundEffect` | relay-rs/src/pool.rs:173-251 | one undisturbed tick and its connects add exactly what was asked for |
| `PoolRefill.Converges` | relay-rs/src/pool.rs:173-251 | left alone, the pool is full after at most `pool_size` ticks and stays full, with no socket opened in vain |
| `PoolRefill.RoundExists` | relay-rs/src/pool.rs:160-166 | such a round is always possible |
| `Logger.Log.TrySend` | relay-rs/src/log.rs:56-62 | a push is accepted exactly while the queue has room |
| `Logger.Log.NoticeDrops` | relay-rs/src/log.rs:87-96 | with quota and anything to report, one notice of exactly the drops held and swapped, paid from the quota; otherwise nothing is written, and without quota what was swapped is lost |
| `Logger.Log.Flush` | relay-rs/src/log.rs:87-113 | the notice, the emission and the drain, with other threads pushing in between: one notice of all drops held so far, then only messages; the queue ends empty, and messages are thrown away only once the quota is used up |
| `Logger.Log.MaybeFlush` | relay-rs/src/log.rs:65-114 | lines written since the quota was reset are counted exactly; starting with quota, every drop held is in the one notice of this flush, and what is held afterwards is what this flush threw away; drops swapped without quota are lost, and no others |
| `Logger.Log.FlushAll` | relay-rs/src/log.rs:117-133 | one notice of the held drops, then the whole queue, whatever the quota; nothing is thrown away |
| `Logger.Log.Accounts` | relay-rs/src/log.rs:65-133 | accepted = printed + thrown away + queued; lines since a reset never exceed the rate; reported and held drops cover all thrown away and never exceed it by more than was refused; they are exact if and only if none was lost or is still uncounted |
| `Logger.ChosenInOrder` | relay-rs/src/log.rs:98-106 | printed messages are a subsequence of the accepted ones, in push order |
| `Logger.FatesPartition` | relay-rs/src/log.rs:98-113 | every message taken from the queue met exactly one fate |
| `Witnesses.FinSpin` | relay-rs/src/main.rs:215-236 | a connection reported for ever because of a FIN behind a full chunk |
| `Witnesses.HangupSpin` | relay-rs/src/main.rs:917-933 | a connection reported for ever by EPOLLHUP with nothing armed |
| `Witnesses.EarlyFin` | relay-rs/src/main.rs:758-856 | a connection in progress whose remote socket is not armed for writability |
| `Witnesses.DropForgotten` | relay-rs/src/log.rs:87-96 | refused lines that no notice will ever report |

## Left out

- System calls: `splice`, `poll`, `connect`, `accept`, `epoll` and `socket_dead_fast` are answers chosen by the kernel, within what the contracts of `Wire` and the parameters of each step allow; UDP payloads, `recvmmsg` and `sendmmsg` buffers are not represented.
- EINTR and ENOMEM: the kernel gives only finitely many, an arbitrary number fixed at the start; with endlessly many the loops of the source need not end.
- Pipes: capacity is counted in bytes, not in pages or buffers.
- Repeated code: the handler spells the same block out for each direction; it is one method here (`ServeDirection`), and the half-close clock is set after the block instead of inside it. The residual drain loop and the pump's are one method, with the status each treats as an error told apart by the caller.
- Time: milliseconds as a parameter; the instant a thread reads is that of its next step, and the taker's instant is read in the step that pops the batch.
- Sockets with an `epoll.modify` that is refused keep their old flags; the wake-up lemmas are stated for sockets whose last request was granted.
- Pool and event loop together: the event loop takes what the accept step found to relay to as a parameter; that a pooled descriptor goes to one client is proved in the protocol.
- Termination of `take_live_unlocked` under interference: a pool refilled with dead sockets without end keeps it looping; proved for the call alone.
- A bound on `pending` with a positive `pool_min_size`: there is none, see `OvershootBoundedIff`.
- Mutex poisoning, thread start-up and shutdown of the workers: the channel lives as long as the protocol.
- Counters of machine width other than the token, the generation, the random word and the time-to-live: `usize` sums do not wrap here.
- Configuration merging, address resolution, socket options, `rlimit`, signals, statistics, log texts, the wall clock's leap backwards, scripts and test clients.
