# MYRED in Dafny

MYRED is a single-threaded, Redis-compatible in-memory server. This project models its core in Dafny
and proves what that core is for:

- **Replication** (`Replication`, `Resync`, `Datasets`, `ReplicationRuns`, `Jams`, `Backlog`, `BacklogLink`): a
  state machine over any number of servers and links. In every run, servers that name the same history hold
  the same bytes, and a partial resync is granted exactly when the missing bytes can be sent and sends just
  these; exactly when a handover finds the target
  with the whole stream, exactly when the datasets follow the streams, and where a replica gets stuck.
- **The failover gate** (`Gate`, `Failover`): when a handover ends and no other one is asked for, every parked
  write of a connection that is not closing runs on a master, once and in order, and on a replica never, and
  it is the next to be answered; no write runs while the gate is closed; dispatching begins or ends a failover
  only by a request for it; and transactions run all of their writes or none.
- **The write log** (`Effects`, `Options`, `WriteLog`, `Restart`, `Keyspace`): what is read back from the log of
  a command has the effect of the command, for every store, clock and argument, at once and at any later time,
  with the exact condition where this fails; and what that effect is, from the client's words.
- **The hash map and its cursor** (`HashMap`, `Scan`, `ScanExact`, `Words`): progressive rehashing loses nothing,
  and a scan reports every key that was there throughout, while the tables grow under it, and how often it
  reports each.
- **Sorted sets** (`Avl`, `ZOrder`, `ZSet`, `ZRange`): the intrusive AVL tree with parent pointers,
  heights and subtree counts, and the range commands against filter, reversal and cut of the sorted list.
- **Requests** (`Resp`, `Grammar`, `Requests`): the parser accepts exactly the requests of a grammar, parsing
  does not depend on how bytes arrive, frames round-trip, and a torn log loads up to the tear.
- **The image** (`Rdb`, `RdbFile`, `Entries`, `Snapshots`, `Crc32`, `Damage`): a store that is dumped loads
  back, exactly when its sizes fit; the loader takes exactly the entries of a grammar; the table-driven checksum is the bit-at-a-time division, and it finds every damage of up
  to four bytes in a row.
- **Expiry, lists and transactions** (`TtlHeap`, `Deque`, `Lists`, `Watch`).

Objects the source updates in place are classes over the same links and arrays, and each method is proved
against a specification on values. Ghost parameters carry the abstract state, such as the tree a node
belongs to.

## What the proofs show about the code

1. **A master with replicas must not be made a replica.** `REPLICAOF` on a server with attached replicas
   keeps them, and its keepalive writes to the history it adopted. Two servers then name one id with
   different bytes (`ReplicationRuns.StarNeeded`). The promises about streams hold in every run in which a
   server with replicas is not made a replica and a replica serves no PSYNC but the one that promotes it.
2. **A handover can go to a target that does not hold the stream.** The test compares the last ack with the
   master's offset (src/server/server.cpp:363). Both are 0 on a master that has written nothing, so it hands
   over to a replica that has not even taken its answer (`ReplicationRuns.EarlyHandover`). And an ack stays
   when the replica has gone on to another master (`ReplicationRuns.StaleHandover`). While the target's link is
   up, the two streams are equal exactly when the target has taken the answer to its PSYNC or has no bytes
   of its own (`Replication.DemoteCaughtUp`).
3. **A lost image is never asked for again.** A full resync adopts id and offset
   (src/server/server.cpp:470-476) before the image is loaded (src/server/server.cpp:522-533). If the link goes
   in between, the next PSYNC asks for nothing and is told to continue, and the replica streams without the
   data (`ReplicationRuns.LostImage`). The same happens when the image fails to load, and then the old data has
   been flushed as well (`ReplicationRuns.FailedImage`). The datasets follow the streams exactly as long as no
   link is taken from a server that is loading and no image fails (`Datasets.WholeExact`).
4. **A log that is run again later can lose keys and revive keys.** Deadlines are logged as wall times, an
   expired key counts as missing while the log is replayed, and expiry is never logged. A key that was given
   a deadline and then freed of it or given a later one is lost if the log is run again after the first
   deadline (`Restart.PersistLost`); a key rewritten with KEEPTTL comes back for ever
   (`Restart.KeepTtlRevives`). The log is right at a later time exactly when every request was on time:
   no key it extended, freed or kept the deadline of had run out by then, or it would have run out all
   the same (`Restart.FollowsExact`, `Restart.RunExact`).
5. **An SPOP of more than 65534 members cuts the log.** It logs one SREM with all of them
   (src/commands/commands.cpp:4000-4042), and the parser takes at most 65536 arguments
   (src/protocol/resp.cpp:54-56). Loading the log stops there and the rest of it is cut off
   (`WriteLog.SPopTooMany`); a replica finds a malformed frame and stays at that offset whenever it comes back,
   until it gets a new image (`Jams.JamReached`, `Jams.JamStays`). A frame is read back exactly when it
   has no more arguments than that, none too long, and less than 2^31 bytes (`Requests.WriterExact`); every
   other frame of the requests modelled here is (`WriteLog.LoggedReadable`).
6. **GETEX with a deadline that wraps** keeps the key and logs its deletion. The log is right exactly when
   the sum with the clock does not wrap (`Effects.GetExExact`, `Effects.GetExWraps`).
7. **SETEX with a time that wraps below zero** keeps the key for ever and logs its deletion. The log is
   right exactly when the 64-bit product is not negative (`Effects.SetExExact`, `Effects.SetExWraps`).
   EXPIRE, PEXPIRE and EXPIREAT are right at once for every argument, also where the product wraps.
8. **A compressed payload of 4 GiB or more cannot be loaded**, because its size is cut to 32 bits
   (src/persistence/rdb.cpp:274). An image loads back exactly when its count fits 32 bits and so does the size
   of a compressed payload (`Rdb.ImageExact`).
9. **How bytes arrive matters near the input limit.** The same frames run when they are sent one by one, and
   close the connection unread when more than 64 MiB arrive at once (`Requests.CutsMatter`).
10. **The bound test in the rehashing loop** (src/ds/hashtable.cpp:54) never fires (`HashMap.NotPastEnd`), and
   a doubling never begins before the older table is drained, so the assignment that would drop it does not.
11. **EXEC after a queueing error keeps the watches** (src/commands/commands.cpp:5511-5517), though DISCARD and
   every other end of a transaction drop them. `Watch.Registry.Exec` states the code's behaviour.
12. **The expiry sweep** deletes up to 2001 entries, one more than its constant `k_max_works`.

## Model

| member | source | states |
|---|---|---|
| `Replication.StepKeeps` | src/server/server.cpp:421-555 | Every step the servers can take in a star (writes, pings, dialling, PSYNC, promotion, taking the answer, the image and each frame, acks, lost links at either end, failover and its abort) keeps the protocol invariant: each server holds a prefix of the stream it names, the author holds all of it, and what a replica has plus what is on the wire continues its master’s stream frame by frame. |
| `Replication.Reached` | src/server/server.cpp:281-350 | The invariant holds at the end of every run from fresh servers, of any length, with any number of servers and whatever bytes are written; and of whole frames if only frames that the parser takes are written. |
| `Replication.SameIdSameStream` | src/commands/commands.cpp:3758-3850 | Over all such runs: two servers that name the same replication id hold comparable streams, and equal ones if their offsets are equal. |
| `Replication.ContinueExact` | src/commands/commands.cpp:3783-3812 | Over all such runs: when PSYNC answers CONTINUE, the replica’s stream followed by exactly the bytes sent is the master’s whole stream; nothing is skipped or repeated, across promotions and the retired second id. If only frames that the parser takes are written, both are whole frames. |
| `Replication.PartialExact` | src/commands/commands.cpp:3783-3801 | The test for a partial resync (current id, or second id up to its offset, and within the backlog) admits only requests for which the bytes sent complete the replica’s stream to the master’s; when it admits one is in the next rows. |
| `Resync.ContinueGranted` | src/commands/commands.cpp:3783-3850 | Over all such runs, the other direction: a replica that says where it is is told CONTINUE exactly when the answering server names its history, or retired it no earlier than where the replica is, keeps a backlog and still has every byte the replica lacks; otherwise it is sent id, offset and dataset. |
| `Resync.DialContinues` | src/commands/commands.cpp:3783-3850 | Over all such runs, from dialling to the answer: a server is continued exactly if it was a replica before and the master can continue it; one that was none takes the master’s history and data whole. |
| `Resync.FailoverGranted` | src/commands/commands.cpp:3769-3812 | Over all such runs: a demoted master is told CONTINUE exactly when its successor names its history, holds the same bytes and keeps a backlog. |
| `Resync.StillContinued` | src/commands/commands.cpp:3783-3801 | Over all runs: a replica that could be continued once can be continued as long as the server keeps its history and what the replica lacks fits the ring, whatever is written, lost and dialled meanwhile. |
| `Replication.FailoverSame` | src/commands/commands.cpp:3853-3946 | Over all such runs: a demoted master that is told CONTINUE by its successor is sent no bytes, and the two hold identical streams. |
| `Replication.DemoteCaughtUp` | src/server/server.cpp:353-392 | Over all such runs: when the handover fires, the target had reached the master’s offset on that link. While the target’s end of it is up, the two hold the same bytes if and only if the target has taken the answer to its PSYNC or has no bytes of its own; so always when the master has written anything, and then the target streams and names the master’s history. |
| `Replication.NeverMalformed` | src/server/server.cpp:538-552 | Over all such runs in which only frames that the parser takes are written: whatever prefix of the stream has arrived at a replica, its parser never reports an error. The frames that WriteLog deals with are such frames, except the one of an SPOP that takes too much. |
| `Jams.WriterJams` | src/persistence/aof.h:16-31 | What the frame writer makes of any arguments is a whole frame that the parser takes, if they are at most 65536, each within the limit and together below 2^31 bytes; else, up to the size where the return value wraps around, the parser takes nothing of it. |
| `Jams.SPopJams` | src/commands/commands.cpp:3984-4051 | The frame of an SPOP that takes more than 65534 members is of the second kind. |
| `Jams.JamReached` | src/server/server.cpp:538-552 | Within the star, for every such frame: a replica that streams finds it on its link, and no prefix of it can be taken. |
| `Jams.JamStays` | src/server/server.cpp:281-350 | Over all runs: a replica that has come to such a frame stays at that offset, through lost links, redialling and partial resyncs, until it is promoted or given another history or a new image. |
| `Replication.PsyncKeeps` | src/commands/commands.cpp:3758-3850 | PSYNC, in all its answers and with the promotion it may trigger, keeps the invariant. |
| `Replication.DialKeeps` | src/server/server.cpp:202-278 | Dialling a master (REPLICAOF, a redial, a handover) keeps the invariant; the request it carries says exactly what the replica holds. |
| `Replication.PromoteKeeps` | src/core/state.cpp:1228-1232 | Shifting to a new id on promotion keeps the invariant: the old stream is common with the new one up to the recorded offset. |
| `Replication.TakeLineKeeps` | src/server/server.cpp:428-483 | Taking CONTINUE, FULLRESYNC or an error from the master keeps the invariant; a full resync adopts id and offset here and waits for the image. |
| `Replication.LoadImageKeeps` | src/server/server.cpp:509-536 | Loading the image, once it is there, keeps the invariant and starts the streaming. |
| `Replication.TakeFrameKeeps` | src/server/server.cpp:538-552 | Applying one frame from the link and feeding it to the replica’s own backlog keeps the invariant, however the bytes were cut on arrival. |
| `Replication.ExtendKeeps` | src/commands/commands.cpp:3640-3667 | Propagating a frame to the backlog and every attached replica keeps the invariant. |
| `Replication.AckKeeps` | src/commands/commands.cpp:3733-3755 | Sending, receiving and losing acks keeps the invariant; an ack is never ahead of what its replica holds. |
| `ReplicationRuns.StarNeeded` | src/commands/commands.cpp:3949-3970 | Outside the star the promise fails: from three fresh servers a state is reached in which a master with an attached replica was made a replica itself, went on pinging into its adopted stream, and now names the same id as its master with a stream that is not comparable. |
| `ReplicationRuns.EarlyHandover` | src/server/server.cpp:353-392 | Within the star, a master that has written nothing hands over to a replica that has not taken the answer to its PSYNC: the link is up, and the target still has another history and other bytes. |
| `ReplicationRuns.StaleHandover` | src/server/server.cpp:353-392 | Within the star, a master that has written hands over to a replica that acknowledged everything and has since followed another server, whose empty stream it now holds. |
| `ReplicationRuns.LostImage` | src/server/server.cpp:463-536 | Within the star, a replica whose link is lost between adopting id and offset and loading the image is told to CONTINUE: it streams at its master’s id and offset without its data. |
| `ReplicationRuns.FailedImage` | src/server/server.cpp:522-533 | The same if the image arrives and fails to load, for whatever data is there by then: the replica comes back, is told to CONTINUE and streams at its master’s id and offset. |
| `Datasets.WholeExact` | src/server/server.cpp:463-536 | From datasets that follow the streams, a step leads to such datasets if and only if it takes no link from a server that has adopted an offset and not yet loaded the image, and is not an image that fails to load and leaves other data. |
| `Datasets.UninterruptedSound` | src/server/server.cpp:463-536 | In terms an operator can see: a step that takes no link from a server that is loading, and is not an image that fails to load, keeps the datasets in step with the streams. |
| `Datasets.UninterruptedUntorn` | src/server/server.cpp:463-536 | So the results below hold for every run in which no server loses its link while it is loading and every image that arrives loads. |
| `Datasets.DataFollows` | src/server/server.cpp:421-555 | Over all runs in the star without such a step: every server that is not loading has exactly the data its stream started from with the stream applied. |
| `Datasets.SameOffsetSameData` | src/commands/commands.cpp:3758-3850 | Over all such runs: two servers at the same offset of the same history have the same data. |
| `Datasets.DemoteSameData` | src/server/server.cpp:353-392 | Over all such runs: a handover of a master that has written, to a target whose link is up, finds the target with the master’s data. |
| `Datasets.FailoverSameData` | src/commands/commands.cpp:3758-3850 | Over all such runs: a demoted master that its successor tells to continue has the successor’s data, unless the promotion itself interrupts a load. |
| `Backlog.Ring.Feed` | src/core/state.cpp:1249-1270 | After any append the ring holds exactly the last bytes of the stream ever written, as many as fit, with the right history length, also when the bytes are longer than the ring. |
| `Backlog.Ring.Copy` | src/core/state.cpp:1273-1283 | Copies out exactly the last bytes of the stream, across the wrap. |
| `Backlog.Ring.StartOffset` | src/core/state.cpp:1242-1246 | The start offset names the first byte still held, 0 if none. |
| `Backlog.Ring.Adopt` | src/server/server.cpp:470-475 | Adopting another stream empties the ring and keeps it consistent with that stream. |
| `BacklogLink.FeedServer` | src/core/state.cpp:1249-1270 | The ring of a server moves as the protocol model says its backlog does. |
| `BacklogLink.Serve` | src/commands/commands.cpp:3783-3801 | The ring serves a request exactly when there is a ring, the offset is not past the stream’s end and every byte from it on is still held; what it serves completes the stream; and that is exactly when the protocol model calls the request partial. |
| `BacklogLink.AdoptServer` | src/server/server.cpp:470-475 | The ring adopts the offset of a full resync as the protocol model says. |
| `Failover.Server.ExactlyOnce` | src/commands/commands.cpp:3712-3729 | The invariant in plain terms, for every live connection at every moment: the writes of it that ran are exactly those it was told had run, each once and in order; what was answered, is parked and is still buffered is what it asked, in order; and its answers are those that MULTI, EXEC and DISCARD call for: EXEC answers for each queued request once and in order, or for none if a write was turned away while queueing. |
| `Failover.Server.DoWrite` | src/commands/commands.cpp:6011-6031 | A write at the gate is parked during a failover, or inside a transaction is refused and spoils it; it is refused on a replica; on a master it is queued inside MULTI and else runs. The whole new state is stated, and only a master outside a failover runs anything. |
| `Gate.GateRules` | src/commands/commands.cpp:6011-6031 | The gate in its own terms: a write runs exactly on a master outside a failover and not inside MULTI; it waits exactly if it comes on its own during a failover; inside MULTI it is queued exactly where it could run and else spoils the transaction; refused and read-only are told apart. |
| `Gate.ControlRules` | src/commands/commands.cpp:5484-5543 | MULTI and DISCARD are answered by whether a transaction is open, EXEC is refused without one and aborted after a rejected write, and inside one every other request is queued. |
| `Gate.RunsMean` | src/commands/commands.cpp:5505-5543 | What a batch without FAILOVER runs: just its writes, in order, on a master outside a failover, and else nothing. |
| `Failover.Server.Perform` | src/commands/commands.cpp:6148-6178 | A write that runs is logged once, moves the stream offset by its bytes and is answered as applied. |
| `Failover.Server.DoRequest` | src/commands/commands.cpp:6011-6068 | Dispatching any request, on its own, inside MULTI or by EXEC, keeps the invariant and answers as the source does, FAILOVER ABORT included; nothing runs while a failover is on, unless the request aborts it; a failover begins or ends only by a FAILOVER request of this connection or of those that were parked; only these can change, they are gone only if they are closing or their peer is, no answer is taken back, every write answered got what the gate says at that moment, and no other request is left lying. |
| `Failover.Server.DoExec` | src/commands/commands.cpp:5505-5543 | EXEC is refused without MULTI and aborted after a rejected write; otherwise it runs every write of the queue and nothing in between, or none: if a watched key was hit, on a replica, or during a failover. This is said of queues without FAILOVER, which can change the gate under the rest. |
| `Failover.Server.Start` | src/commands/commands.cpp:3902-3945 | FAILOVER is refused on a replica, during a failover, for FORCE without a target or a timeout, without replicas, for a target that is no replica and if none has said where it listens, and in no other case; otherwise the gate closes with the target asked for or the best replica’s, with the flag, and with a deadline exactly if a timeout was given, that long from now. |
| `Failover.Server.StartThenCron` | src/server/server.cpp:353-392 | From an accepted FAILOVER to the next turn of the cron at any later time: it waits exactly if the target has not acknowledged the whole stream and the timeout, if one was given, is not over; it hands over exactly if the target has, or FORCE was given and the time is up, and the target can be dialled. |
| `Failover.Server.PickBest` | src/commands/commands.cpp:3923-3935 | Without a target named, the replica chosen has said where it listens and no such replica has acknowledged more; none is chosen exactly when none has. |
| `Failover.Server.ByAddr` | src/core/state.cpp:1203-1209 | Finds a replica at that address, or none exactly when there is none. |
| `Failover.Server.Abort` | src/commands/commands.cpp:3883-3900 | FAILOVER ABORT is refused unless the handover has not begun. Then the failover is over, unless a request that waits on a parked connection starts another: on a master every write that was parked on a connection not closing runs, and it is the next to be answered on every such connection whose peer is there; on a replica it is refused. The resumption terminates although dispatching can abort and resume again. |
| `Failover.Server.Drain` | src/server/server.cpp:953-991 | Reading on stops only at a parked write, a closing connection or the end of what was read; order and conservation are kept, each write dispatched is parked, or answered as the gate says at that moment, and the failover changes only by a FAILOVER request that was waiting here or on a parked connection. |
| `Failover.Server.ConnResume` | src/server/server.cpp:1085-1099 | Resuming a connection dispatches all that was read behind its parked write, up to the next parked one, each write answered as the gate says and run exactly if it is answered as run; then the connection is gone exactly if it is closing or its peer is, which is found only after the requests were dispatched. It touches no connection that was not parked, and the failover changes only by a FAILOVER request on one of these. |
| `Failover.Server.Redo` | src/commands/commands.cpp:3712-3729 | A parked write is dispatched before anything read behind it, and if the gate lets it run it is the next in the log, also if the flush then finds the peer gone; the connection goes exactly if it is closing or its peer is. |
| `Failover.Server.Resume` | src/commands/commands.cpp:3712-3729 | If no FAILOVER waits on a parked connection, the failover stays over and on a master every write that was parked on a connection not closing has run. Whenever it is over in the end, each such write is the next to be answered on its connection, as run on a master and as refused on a replica; only connections that are closing or whose peer is gone are missing, and no other has changed. The walk terminates although dispatch can park and abort again, and leaves no write parked outside a failover. |
| `Failover.Server.Destroy` | src/commands/commands.cpp:3698-3705 | A connection that closes leaves the parked set. |
| `Failover.Server.Receive` | src/server/server.cpp:1029-1081 | New requests extend what was asked and are dispatched up to a parked write: on a master outside a failover every write read is run, or queued in its transaction; no request is left lying on any connection, conservation holds, only this connection and those parked before can change, and a failover begins or ends only by a FAILOVER request waiting on one of these. |
| `Failover.Server.Cron` | src/server/server.cpp:353-392 | Waits, gives up or hands over, each exactly when the code does: it hands over only to a connected replica at the target’s address that acknowledged the whole stream, or with FORCE after the deadline, and only if the target can be dialled; the replicas are gone then, nothing has run, and every other parked write stays parked. On giving up the failover is over and, on a master, every parked write of a connection not closing has run, unless a FAILOVER waits on one of them; each is the next to be answered where the peer is there. |
| `Failover.Server.HandOver` | src/server/server.cpp:376-391 | The replicas are disconnected; a target that cannot be dialled leaves the server in its role without replicas and out of the failover, and on a master every parked write of a connection not closing has run, unless a FAILOVER waits on one of them; each is the next to be answered where the peer is there. |
| `Failover.Server.Reset` | src/server/server.cpp:190-200 | After a failover ends, completed or not, none is on, unless a FAILOVER waits on a parked connection: every write parked on a connection not closing has run on a server that is still master and was refused on one that was demoted, as the next to be answered where the peer is there; none is parked and nothing is left lying. |
| `WriteLog.EffectPreserved` | src/commands/commands.cpp:4564-4646 | For every store, clock and request of SET with options, SETEX, PSETEX, EXPIRE, PEXPIRE, EXPIREAT, GETEX and SPOP: running what is read back from the bytes that were logged leaves the same live keys, values and deadlines as the request, if and only if its numbers meet the condition LogExact and, for SPOP, the frame it made can be read back; a request that is not logged changed nothing a client can see. |
| `WriteLog.ReceivedPreserved` | src/commands/commands.cpp:4564-4646 | From the bytes a client sent to the bytes that are logged and back, for every input the parser reads as one of these requests: the same effect, under the same exact condition. |
| `WriteLog.SPopExact` | src/commands/commands.cpp:3984-4051 | What is read back from the bytes that SPOP logged removes exactly the members it took, if and only if that one frame has at most 65536 arguments, each within the limit, and less than 2^31 bytes. |
| `WriteLog.SPopTooMany` | src/persistence/aof.cpp:277-291 | An SPOP of more than 65534 members runs and logs a frame the parser refuses: loading the log stops there, whatever was written after it, and the file is cut there. |
| `WriteLog.LoggedReadable` | src/persistence/aof.h:16-31 | Whatever any of the other requests logs can be read back. |
| `Requests.WriterExact` | src/protocol/resp.cpp:46-92 | For any arguments and any bytes behind: the parser reads back what the writer wrote, all of it and nothing more, if and only if there are at most 65536 of them, each within the limit, and the frame is below 2^31 bytes. |
| `Requests.LoadStops` | src/persistence/aof.cpp:277-291 | A log with a frame that is not read: exactly the commands before it are replayed, and the file is cut back to their bytes. |
| `Effects.FramesPreserve` | src/commands/commands.cpp:4564-4646 | The same for the commands as argument lists, before they are encoded: they have the effect of the request if and only if its numbers do not wrap. |
| `Restart.FollowsExact` | src/persistence/aof.cpp:274-316 | What a request logged, run again at any later time by a server that showed the same keys: it shows the same keys again, at that moment and ever after, if and only if the numbers of the request do not wrap and the request was on time: a key whose time to live it extends or removes, or whose deadline it keeps, must not have run out by then. |
| `Restart.RunExact` | src/persistence/aof.cpp:274-316 | Over all runs, each part of the log run again at any later time (by a server that starts up, or a replica): both sides show the same keys after every request if and only if every request was on time. |
| `Restart.Restored` | src/persistence/aof.cpp:220-353 | A server that starts from the bytes of the log at any later time shows the keys of the one that wrote it, then and ever after, if every request was on time and no SPOP was too large. |
| `Restart.ReceivedRestored` | src/persistence/aof.cpp:220-353 | The same for requests that were parsed from any bytes the clients sent. |
| `Restart.PersistLost` | src/commands/commands.cpp:4613-4640 | For every key, value and deadline: SET with a deadline and then GETEX PERSIST keeps the key for ever, and the log run again after the deadline loses it. |
| `Restart.KeepTtlRevives` | src/commands/commands.cpp:4582-4601 | For every key, value and deadline: SET with a deadline and then SET KEEPTTL lets the key run out, and the log run again after the deadline has it for ever. |
| `Effects.SetPreserved` | src/commands/commands.cpp:4582-4601 | The one frame logged for SET with any options (DEL, PXAT, KEEPTTL or plain) has the effect of the SET. |
| `Effects.SetExExact` | src/commands/commands.cpp:4602-4612 | SETEX and PSETEX are preserved exactly when the time to live, multiplied in 64 bits, does not come out negative. |
| `Effects.SetExWraps` | src/commands/commands.cpp:467-482 | SETEX with 9223372036854775807 seconds keeps the key for ever and logs its deletion. |
| `Effects.GetExExact` | src/commands/commands.cpp:4613-4640 | GETEX with a deadline is preserved exactly when its sum with the clock does not wrap. |
| `Effects.GetExWraps` | src/commands/commands.cpp:562-632 | GETEX PX with a deadline past the 64-bit range keeps the key and logs its deletion. |
| `Effects.GetExPersistPreserved` | src/commands/commands.cpp:562-632 | GETEX PERSIST is logged as a PERSIST with the same effect. |
| `Effects.ExpirePreserved` | src/commands/commands.cpp:1012-1042 | EXPIRE and PEXPIRE are logged as an absolute PEXPIREAT with exactly the same resulting store, for every argument, also where the product wraps. |
| `Effects.ExpireAtPreserved` | src/commands/commands.cpp:3294-3327 | EXPIREAT is logged as a PEXPIREAT with exactly the same resulting store. |
| `Effects.SPopPreserved` | src/commands/commands.cpp:3984-4051 | The SREM made for SPOP removes exactly the members that were popped, whatever was picked; WriteLog.SPopExact says when its bytes are read back. |
| `Effects.NotDirtyNoChange` | src/commands/commands.cpp:6148-6178 | A request that does not bump the write counter changes no live key, value or deadline. |
| `Effects.SetMeaning` | src/commands/commands.cpp:383-464 | SET on the live keys, in its own terms: when NX, XX, GET and a past deadline let it write, what value and deadline the key then has, and that no other key changes. |
| `Effects.ExpireMeaning` | src/commands/commands.cpp:1019-1042 | EXPIRE and its kin on the live keys: a live key gets exactly that deadline, or is gone at once when the time is not positive; it counts as a write exactly when the key was live, and no other key changes. |
| `Effects.GetExMeaning` | src/commands/commands.cpp:562-632 | GETEX on the live keys: only a live string is touched, PERSIST frees it of its deadline, a deadline acts as EXPIRE does, and every error leaves all as it was. |
| `Effects.SPopMeaning` | src/commands/commands.cpp:3984-4051 | SPOP on the live keys: it takes one member or as many as are asked for, if there are so many, and none for a count that is no positive number; exactly these leave the set, which shrinks by their number and goes when emptied. |
| `Effects.ParseOptsRange` | src/commands/commands.cpp:330-380 | Accepted SET options are coherent: never NX with XX, never KEEPTTL with a deadline, and every deadline is a positive 64-bit number. |
| `Effects.ParseSetOpts` | src/commands/commands.cpp:330-380 | The option loop of SET, against its recursive reading: order, repetition, conflicts, missing values and range errors; what that reading accepts and means is in the next rows. |
| `Options.OptionsExact` | src/commands/commands.cpp:330-380 | A list of options is accepted if and only if it spells, in any case, options that agree: none unknown, no time without its number, no number that is not positive or past the clock’s range, not NX with XX, no time with KEEPTTL, no two units. |
| `Options.OptionsMean` | src/commands/commands.cpp:330-380 | Each flag is set exactly if its word is there, and the deadline is that of the last time said: seconds or milliseconds, from now or absolute. |
| `Options.SetSays` | src/commands/commands.cpp:383-464 | SET on the live keys from the client’s words: a refused list changes nothing, and any other does what its options say. |
| `Options.SetTimed` | src/commands/commands.cpp:357-376 | EX v leaves the deadline 1000 v and PX v the deadline v from now, EXAT and PXAT those instants; one that has come deletes the key. |
| `Options.PlainSet` | src/commands/commands.cpp:385-394 | SET without options always writes the string, and the key has no deadline. |
| `Options.PersistSays` | src/commands/commands.cpp:1150-1171 | PERSIST frees a live key of its deadline, and counts as a write exactly if it had one. |
| `Options.SRemSays` | src/commands/commands.cpp:3513-3538 | SREM takes the named members out of a live set, drops it with its last one, and counts as a write exactly if one of them was there. |
| `Options.GetExSays` | src/commands/commands.cpp:585-632 | GETEX with a time is refused exactly if it counts from now and is not positive or its seconds are too many; otherwise the key gets what is left until the instant named, or goes. |
| `Options.GetExUnknown` | src/commands/commands.cpp:585-632 | GETEX with any other word in its place changes nothing. |
| `Options.ExpireSays` | src/commands/commands.cpp:1012-1045 | EXPIRE and PEXPIRE: a live key gets that many units from now, in 64-bit milliseconds; a word that is no number changes nothing. |
| `Options.ExpireAtSays` | src/commands/commands.cpp:3294-3325 | EXPIREAT and PEXPIREAT: a live key gets what is left until that instant. |
| `Options.SetExSays` | src/commands/commands.cpp:467-490 | SETEX and PSETEX: the string with exactly that time to live if the product fits 64 bits, without one if it wraps below zero, and nothing for a time that is not positive. |
| `Effects.IntRoundTrip` | src/commands/commands.cpp:99-127 | The integer reader accepts exactly the canonical decimal spellings of 64-bit integers: printing then reading is the identity, and whatever is read prints back to the same text. |
| `Effects.ParseInt` | src/commands/commands.cpp:99-127 | The digit loop with its overflow guard computes that reader, including the most negative number. |
| `Keyspace.Db.Run` | src/commands/commands.cpp:6134-6178 | The dispatcher runs the handler in place and emits the frames exactly when the write counter moved; the new keyspace and the frames are those of the specification. |
| `Keyspace.Db.Set` | src/commands/commands.cpp:383-464 | SET in place, with lazy expiry first and each early return in order, has the specified effect. |
| `Keyspace.Db.GetEx` | src/commands/commands.cpp:562-632 | GETEX in place has the specified effect on every option and error path. |
| `Keyspace.Db.Expire` | src/commands/commands.cpp:1019-1042 | Giving a key a time to live, or deleting it when that is not positive, after lazy expiry. |
| `Keyspace.Db.SRem` | src/commands/commands.cpp:3513-3539 | Removes the named members one by one, drops a set that becomes empty and counts as a write exactly when some member was there. |
| `Keyspace.Db.SPop` | src/commands/commands.cpp:3984-4051 | Pops distinct members of the set, as many as asked and present, drops an emptied set; which members is left open. |
| `Keyspace.Db.Del` | src/commands/commands.cpp:912-928 | Deletes the named keys one by one; a write exactly when one of them was there. |
| `HashMap.HMap.Insert` | src/ds/hashtable.cpp:101-113 | Inserting adds exactly the node, whatever stage the rehash is in, and keeps both tables well formed: every chain acyclic, every node in the bucket of its hash, sizes exact, and the rehash ahead of the inserts. |
| `HashMap.HMap.Lookup` | src/ds/hashtable.cpp:79-86 | Finds a node with that hash that the comparison accepts if one is in either table, and reports none otherwise, while a step of rehashing moves nodes without changing the contents. |
| `HashMap.HMap.Delete` | src/ds/hashtable.cpp:88-97 | Removes exactly the node found, from whichever table holds it. |
| `HashMap.HMap.Size` | src/ds/hashtable.cpp:122-124 | The two counters add up to the number of nodes, which stays below eight per bucket of the newer table. |
| `HashMap.HelpRehashing` | src/ds/hashtable.cpp:51-70 | One helping step moves up to 128 nodes from the older table to the newer one, loses and duplicates none, keeps the drained prefix empty and drops the older table when it is empty. |
| `HashMap.NotPastEnd` | src/ds/hashtable.cpp:51-56 | While nodes are left, the migration position is inside the older table, so the bound test in the loop never fires. |
| `HashMap.DrainedEmpty` | src/ds/hashtable.cpp:57-61 | Buckets before the migration position are empty, and an empty bucket at it extends the drained prefix. |
| `HashMap.Trigger` | src/ds/hashtable.cpp:73-77 | Rehashing starts only when no older table is left: the older table is always drained before the next doubling, so no chain is dropped. |
| `HashMap.LoadBound` | src/ds/hashtable.cpp:101-113 | With or without a rehash in progress there are fewer than eight nodes per bucket of the newer table. |
| `HashMap.HInsert` | src/ds/hashtable.cpp:15-21 | The node becomes the head of the chain of its bucket, every other chain unchanged. |
| `HashMap.HLookup` | src/ds/hashtable.cpp:24-37 | Yields the link that holds the first matching node, or none exactly when no node matches. |
| `HashMap.HDetach` | src/ds/hashtable.cpp:40-45 | Unlinks exactly that node from its chain through the link. |
| `Scan.ScanComplete` | src/ds/hashtable.cpp:182-212 | However the tables grow, rehash and change between the calls, a scan from cursor 0 until it returns 0 reports every node present at each of its calls. |
| `Scan.ScanEnds` | src/ds/hashtable.cpp:182-212 | A scan cannot go on for ever: the bit-reversed cursor strictly grows with every call until it wraps to 0. |
| `Scan.CallCovers` | src/ds/hashtable.cpp:188-211 | One call with any count reports every node whose bit-reversed hash lies between the cursor it was given and the one it returns. |
| `Scan.SnapHolds` | src/ds/hashtable.cpp:182-212 | What a call sees of well-formed tables holds every node of the map. |
| `Scan.ScanTables` | src/ds/hashtable.cpp:182-212 | The double loop over both tables and the cursor arithmetic return that call’s cursor and nodes; how often it reports a node is in the next rows. |
| `ScanExact.CallTimes` | src/ds/hashtable.cpp:188-211 | One call reports a node exactly as often as it passes a place of it in the order of the walk: nothing that is not in the map, and nothing too often. |
| `ScanExact.CallPlace` | src/ds/hashtable.cpp:188-211 | A call visits as many buckets as it is told, or what is left of the walk, and at least one, and returns the cursor just behind them, or 0 after the last. |
| `ScanExact.ScanTimes` | src/ds/hashtable.cpp:182-212 | A complete scan of tables that stay as they are, in calls of any size, reports each node of the larger table once, each of a smaller one as often as the larger is larger, and nothing else. |
| `ScanExact.ScanOnce` | src/ds/hashtable.cpp:182-212 | Without an older table that is the map’s nodes, each exactly once. |
| `ScanExact.TablesExact` | src/ds/hashtable.cpp:182-212 | What a call sees of well-formed tables holds each node of the map once, in one of them. |
| `Words.RevBitsReverses` | src/ds/hashtable.cpp:166-180 | The five masked swaps and the swap of the halves reverse the 64 bits. |
| `Words.MaskSwaps` | src/ds/hashtable.cpp:166-180 | Shifting down and up under a mask of every second block of bits swaps neighbouring blocks. |
| `Words.MasksAre` | src/ds/hashtable.cpp:166-180 | The masks are the five constants of the source. |
| `Words.NextCursorVal` | src/ds/hashtable.cpp:204-207 | Setting the high bits, reversing, adding one and reversing back moves, in reversed order, to the start of the next bucket, or to 0 after the last. |
| `Words.CursorCovers` | src/ds/hashtable.cpp:204-207 | A hash passed by the advance of the cursor shares the masked bits with it, at every table size. |
| `Avl.Fix` | src/ds/avl.cpp:68-92 | After a change at one place, the walk to the root leaves an AVL tree: parent and child links mirror each other, stored heights and subtree counts are exact, every node is balanced, and the nodes and their order are what they were. |
| `Avl.FixLeft` | src/ds/avl.cpp:53-58 | Restores balance at a node two levels left-heavy, by one rotation or two, with the same nodes in the same order. |
| `Avl.FixRight` | src/ds/avl.cpp:60-65 | The mirror case. |
| `Avl.RotLeft` | src/ds/avl.cpp:13-30 | A left rotation in memory is a left rotation of the tree: links and parents of all three subtrees, heights and counts, and nothing else written. |
| `Avl.RotRight` | src/ds/avl.cpp:32-49 | The mirror case. |
| `Avl.DelEasy` | src/ds/avl.cpp:94-108 | Splicing out a node with at most one child and rebalancing yields the AVL tree of the remaining nodes in order. |
| `Avl.Del` | src/ds/avl.cpp:111-139 | Deleting any node, with its successor taking over its place in memory when it has two children, yields the AVL tree of the remaining nodes in order. |
| `Avl.Delete` | src/ds/avl.cpp:111-139 | The same by rank: the order loses exactly the node at its place. |
| `Avl.Offset` | src/ds/avl.cpp:141-168 | Walking by an offset from a node reaches the node that many places on, and null exactly when there is none. |
| `Avl.RankOf` | src/types/zset.cpp:237-248 | Climbing from a node adds up to its place in the order. |
| `Avl.AtRank` | src/types/zset.cpp:204-218 | The descent by counts finds the node at that place, and null exactly when the rank is out of range. |
| `Avl.PlaceInjective` | src/ds/avl.cpp:141-168 | A node found at index k of the order has place k, so rank of a node and node at a rank are inverse. |
| `ZOrder.MemcmpIsLex` | src/types/zset.cpp:26-36 | Comparing the common prefix and then the lengths is the lexicographic order of names. |
| `ZOrder.KeyLessTotal` | src/types/zset.cpp:26-42 | Ordering by score, then name is a strict total order. |
| `ZOrder.KeyLessTransitive` | src/types/zset.cpp:26-42 | That order is transitive. |
| `ZSets.TreeInsert` | src/types/zset.cpp:59-70 | The node goes in at one place of the order, which stays sorted; the tree is AVL again. |
| `ZSets.CountBelow` | src/types/zset.cpp:188-200 | The number of members below a bound, inclusive or not, cuts the sorted list exactly at that bound. |
| `ZSets.ZSet.Insert` | src/types/zset.cpp:86-97 | Adds a member or moves an existing one; the tree stays sorted, balanced and in step with the name index, and says whether the member is new. |
| `ZSets.ZSet.Update` | src/types/zset.cpp:72-82 | A new score moves the very node to its new place; no other member changes. |
| `ZSets.ZSet.Lookup` | src/types/zset.cpp:119-129 | Finds the member by name, or none exactly when it is absent. |
| `ZSets.ZSet.Remove` | src/types/zset.cpp:132-146 | Removes exactly that member from tree and index. |
| `ZRange.Emit` | src/commands/commands.cpp:1406-1427 | For ranges by rank or score, forward or reversed, with LIMIT: the members visited from one seek and a walk are the sorted list filtered, reversed and cut. |
| `ZRange.Interval` | src/commands/commands.cpp:1375-1397 | The rank interval covers exactly the members the range selects. |
| `ZRange.RankIntervalCovers` | src/commands/commands.cpp:1375-1397 | Negative, clamped and reversed rank arguments select the members their definition says. |
| `ZRange.ScoreIntervalCovers` | src/commands/commands.cpp:1375-1397 | Two counts below the bounds delimit exactly the members within the bounds, exclusive ends included. |
| `ZRange.SkipTakeIsLimit` | src/commands/commands.cpp:1406-1427 | The offset and count of LIMIT, with a negative count, skip and take what LIMIT means. |
| `ZRange.RankMeans` | src/commands/commands.cpp:1382-1397 | A range of ranks, position by position: those between its ends, where a negative end is a distance from the end of the list. |
| `ZRange.LimitMeans` | src/commands/commands.cpp:1406-1427 | LIMIT, position by position: those past the offset and, unless the count is negative, among the next count. |
| `ZRange.BoundsMean` | src/commands/commands.cpp:1376-1381 | A range of scores is the interval between its bounds, each taken in unless it is exclusive. |
| `ZRange.Count` | src/commands/commands.cpp:1492-1510 | ZCOUNT is the number of members within the bounds. |
| `ZRange.RemRange` | src/commands/commands.cpp:1560-1602 | Removes exactly the selected members from tree and index and counts them; the others keep their order and scores, and the key goes exactly when the last member was removed. |
| `Resp.ParseRequest` | src/protocol/resp.cpp:13-92 | The parser loops compute the reading of a request: bytes consumed, 0 for more, -1 for malformed, and the arguments. |
| `Resp.ParseAppend` | src/protocol/resp.cpp:13-92 | Once a request parses or is refused, bytes behind it do not change that. |
| `Resp.PrefixNeedsMore` | src/protocol/resp.cpp:13-92 | Every proper prefix of a whole frame asks for more; it is neither accepted nor refused. |
| `Resp.ConsumedIsFrame` | src/protocol/resp.cpp:13-92 | The bytes consumed are themselves a whole frame with the same arguments. |
| `Resp.SplitIntoWords` | src/protocol/resp.cpp:32-40 | An inline line is cut into non-empty words at its blanks, and nothing but blanks is dropped. |
| `Grammar.WordsExact` | src/protocol/resp.cpp:32-40 | A line has just one list of words, the runs without blanks with blanks or the ends around them, and that is what it is split into. |
| `Grammar.FrameExact` | src/protocol/resp.cpp:45-92 | The parser takes bytes that begin with an asterisk as a request with these arguments and this length if and only if they are spelled so: the number of arguments, then each with its length and its line ends, within the limits. |
| `Grammar.InlineExact` | src/protocol/resp.cpp:13-44 | Any other bytes are taken if and only if they begin with a line that is not too long, split into its words without the CR before its LF; they are refused exactly if no line end comes within the limit. |
| `Resp.ReadNumber` | src/protocol/resp.cpp:51-57 | The digit loop with its limit reads exactly the numbers up to the limit and refuses everything else. |
| `Resp.EncodeTo` | src/persistence/aof.h:17-27 | Appends the frame of the arguments. |
| `Resp.ParseEncode` | src/persistence/aof.h:17-27 | A frame that was written parses back to its arguments, whatever follows it, and consumes itself exactly. |
| `Requests.Buffer.Append` | src/protocol/buffer.cpp:18-53 | Appending, with the sliding and the growing it may need, keeps what is queued and adds the bytes behind it. |
| `Requests.Buffer.Consume` | src/protocol/buffer.cpp:77-89 | Consuming drops exactly that many bytes from the front. |
| `Requests.HandleRead` | src/server/server.cpp:1029-1081 | A read event over any number of chunks: the connection is closed, with nothing run, exactly when queue and chunks together pass the limit; otherwise it yields the requests of the queued bytes and the chunks together and leaves the rest queued. |
| `Requests.TakeRequests` | src/server/server.cpp:953-991 | The request loop takes exactly the complete requests from the front of the queue. |
| `Requests.ReadStops` | src/server/server.cpp:953-991 | Reading goes on until the parser wants more bytes or gives up, and the connection is refused exactly if it gives up. |
| `Requests.SessionIsRead` | src/server/server.cpp:1029-1081 | However the bytes are cut into read events, a connection executes requests of the whole byte string from its start, and all of them unless it sent too much at once. |
| `Requests.CutsDoNotMatter` | src/server/server.cpp:1029-1081 | Two ways of cutting the same bytes, neither of which sends too much at once, execute the same requests and are refused alike. |
| `Requests.CutsMatter` | src/server/server.cpp:1047-1056 | Frames that are more than the limit in all run when sent one by one, and none of them does when they are sent at once. |
| `Requests.LoadLog` | src/persistence/aof.cpp:254-293 | Loading a log replays its requests and finds where the last good one ends. |
| `Requests.LoadTorn` | src/persistence/aof.cpp:277-293 | A log whose last frame is torn anywhere replays all frames before it, and the good length ends exactly before it. |
| `Requests.LoadAgain` | src/persistence/aof.cpp:343-349 | A log cut to its good length loads the same requests again and needs no further cut, if and only if every request that was read lies within what is left. |
| `Requests.SmallIsWithin` | src/protocol/resp.cpp:89-92 | It does whenever no request is so long that its size wraps in 32 bits. |
| `Requests.LoadFile` | src/persistence/aof.cpp:220-353 | A file with an image before its log: if the image is torn or fails nothing is replayed; otherwise the log behind the image is replayed and the file is cut to image and good requests; it loads if no replayed command answers with an error. |
| `Requests.FileReads` | src/persistence/rdb.cpp:321-330 | A file written with an image before its log is taken apart as it was put together if the image loads, and is torn if it does not or if the file is cut within the image. |
| `Requests.FileAgain` | src/persistence/aof.cpp:343-349 | The file that was cut still has its image, and its log loads again as before under the same condition. |
| `Requests.FramedTake` | src/server/server.cpp:538-552 | Whatever part of a well-framed stream has arrived, the next request read is the stream’s own and leaves a well-framed rest. |
| `Rdb.ImageRoundTrip` | src/persistence/rdb.cpp:774-816 | Loading an image that was written restores every record that has not expired, in order, with values and deadlines, through checksum and compression, at any later clock. |
| `Rdb.ImageExact` | src/persistence/rdb.cpp:264-290 | For a compressor that fails when it is given too little room, as zlib does: an image loads back if and only if the number of its entries fits 32 bits and so does, when it is compressed, the size of its payload. |
| `Damage.LoadedIsSealed` | src/persistence/rdb.cpp:774-816 | What loads begins with the magic and the version and ends in the checksum of all that is before it. |
| `Damage.BurstFound` | src/persistence/rdb.cpp:39-60 | Two messages that differ only in up to four bytes in a row have different checksums. |
| `Damage.DamageFound` | src/persistence/rdb.cpp:774-816 | An image that loads does not load when up to four bytes in a row are changed, anywhere before the checksum or within it. |
| `Entries.EntriesExact` | src/persistence/rdb.cpp:728-772 | The loader puts entries into the store if and only if they are what the bytes spell: type, deadline, key and value of each, none too large and none expired, and then the end mark. |
| `Entries.UnpackExact` | src/persistence/rdb.cpp:774-816 | A compressed payload is taken exactly if it has its size in front, the size is not beyond the ratio the loader allows, and it unpacks. |
| `Rdb.TooLargePacked` | src/persistence/rdb.cpp:271-275 | A compressed payload of 4 GiB or more is written with a size cut to 32 bits, and is turned away when it is loaded. |
| `Snapshots.StoreRoundTrip` | src/persistence/rdb.cpp:237-312 | A store written in any order of keys and members and loaded into an empty one, at any later time and on another monotonic clock, comes back with its strings, lists, sets, hashes and sorted sets as values, without the entries whose time ran out, and with the time left by the wall clock. |
| `Snapshots.LoadsValue` | src/persistence/rdb.cpp:457-740 | From a string, a list in its order, or the members of a set, hash or sorted set each once in any order, the loader builds just the value they were written for. |
| `Snapshots.LoadedAtOnce` | src/persistence/rdb.cpp:24-31 | Loaded at once on the same clock, it is the store without the entries that are due. |
| `Rdb.EntriesRoundTrip` | src/persistence/rdb.cpp:728-771 | The entries of a payload read back to the records written, without those that have expired. |
| `Rdb.RecordRoundTrip` | src/persistence/rdb.cpp:457-726 | A record of any type reads back, or is skipped exactly to its end if it has expired. |
| `Rdb.GuardPasses` | src/persistence/rdb.cpp:502-726 | The plausibility test of a member count against the bytes left never refuses what was written. |
| `Rdb.SkipRecordOf` | src/persistence/rdb.cpp:457-726 | Skipping an expired record of any type ends at the next record. |
| `Rdb.PayloadRoundTrip` | src/persistence/rdb.cpp:774-816 | The compressed or plain body gives back the payload. |
| `Rdb.DeadlineKept` | src/persistence/rdb.cpp:24-31 | A deadline on the monotonic clock, stored as wall time and loaded on another monotonic clock, leaves the time that is left by the wall clock. |
| `RdbFile.WriteItems` | src/persistence/rdb.cpp:98-126 | Appending members and patching their count afterwards writes the count and the members. |
| `RdbFile.WriteRecord` | src/persistence/rdb.cpp:128-227 | Writes the record of any type. |
| `RdbFile.Serialize` | src/persistence/rdb.cpp:237-312 | Header, payload, optional compression and checksum make the image. |
| `RdbFile.Cursor.LoadOne` | src/persistence/rdb.cpp:457-726 | The loaders of all types, with every short read, bad count and expired record, read what the format says and leave the cursor there. |
| `RdbFile.Cursor.ReadString` | src/persistence/rdb.cpp:441-454 | A length and as many bytes, or failure without moving past the end. |
| `RdbFile.Parse` | src/persistence/rdb.cpp:728-771 | The entry loop, with its type tags, count and end mark. |
| `RdbFile.LoadBuffer` | src/persistence/rdb.cpp:774-816 | Size, magic, version, checksum, decompression bound and entries are checked in order; the outcome is that of the format. |
| `Crc32.Init` | src/persistence/rdb.cpp:39-48 | The 256 entries are the remainders of the bytes, one bit at a time. |
| `Crc32.Compute` | src/persistence/rdb.cpp:50-57 | The table-driven checksum is the bit-at-a-time division of section 8 of RFC 1952, for every input. |
| `Crc32.TableStep` | src/persistence/rdb.cpp:50-57 | One table step is eight bit steps, by linearity of the shift. |
| `TtlHeap.Timers.HeapUp` | src/ds/heap.cpp:17-27 | Restores the heap from below and the back index of every entry it moves. |
| `TtlHeap.Timers.HeapDown` | src/ds/heap.cpp:30-58 | Restores the heap from above, and the back indexes. |
| `TtlHeap.Timers.HeapUpdate` | src/ds/heap.cpp:60-67 | Restores the heap after any one change. |
| `TtlHeap.Timers.HeapDelete` | src/core/state.cpp:1164-1172 | Removes exactly that entry’s deadline by moving the last one into its place. |
| `TtlHeap.Timers.HeapUpsert` | src/core/state.cpp:1175-1183 | Sets or adds exactly that entry’s deadline. |
| `TtlHeap.Timers.SetTtl` | src/core/state.cpp:1104-1115 | A negative time removes the deadline, any other sets it; heap and indexes agree. |
| `TtlHeap.RootMin` | src/ds/heap.cpp:4-14 | The root is the earliest deadline of all. |
| `TtlHeap.Timers.Sweep` | src/server/server.cpp:859-875 | A sweep deletes only entries whose deadline has passed, at most 2001 of them, changes no other deadline and adds none, and if it stops earlier no passed deadline is left. |
| `Deques.MaskWraps` | src/ds/deque.h:32-34 | Masking an index below twice the capacity is its remainder, for a power of two. |
| `Deques.Deque.Grow` | src/ds/deque.cpp:5-18 | Doubling the ring, or making it 8 at first, keeps the elements in order; capacities stay powers of two. |
| `Deques.Deque.Shrink` | src/ds/deque.cpp:44-55 | Halving the ring keeps the elements in order and the capacity a power of two of at least 8. |
| `Deques.Capacities` | src/ds/deque.cpp:5-90 | The ring doubles exactly when it is full and halves exactly when three quarters are empty, always has room for one more, and neither is undone by the next operation. |
| `Deques.Deque.PushBack` | src/ds/deque.cpp:33-41 | Adds the element behind the others; the ring grows exactly when it was full. |
| `Deques.Deque.PushFront` | src/ds/deque.cpp:21-30 | Adds the element before the others; the ring grows exactly when it was full. |
| `Deques.Deque.PopFront` | src/ds/deque.cpp:59-72 | Takes the first element, or none from an empty deque; the ring halves exactly when more than 8 slots are less than a quarter full. |
| `Deques.Deque.PopBack` | src/ds/deque.cpp:75-88 | Takes the last element, or none from an empty deque; the ring halves by the same rule. |
| `Deques.Deque.Get` | src/ds/deque.cpp:92-97 | The element at that index, or none past the end. |
| `Deques.Deque.OpenGap` | src/commands/commands.cpp:2378-2397 | Moving the shorter side leaves every element before and after the gap in order. |
| `Deques.Deque.CloseGap` | src/commands/commands.cpp:2400-2421 | Removes exactly the element at that index, moving the shorter side. |
| `Lists.DoLrem` | src/commands/commands.cpp:2485-2557 | LREM with a positive, negative or zero count removes the first, the last or all matches, reports how many, and drops the key exactly when no element is left. |
| `Lists.RemoveFirstIs` | src/commands/commands.cpp:2485-2557 | Removing the first matches removes them all from a prefix that holds just that many, and nothing behind it. |
| `Lists.RemoveLastIs` | src/commands/commands.cpp:2485-2557 | Removing the last matches is the mirror image of removing the first. |
| `Lists.DoLinsert` | src/commands/commands.cpp:2424-2482 | LINSERT puts the value before or after the first occurrence of the pivot and returns the new length, or -1 without it. |
| `Lists.DoLtrim` | src/commands/commands.cpp:2560-2624 | LTRIM keeps exactly the elements whose index its start and stop select, negative and out of range arguments included; the key goes exactly when none is left. |
| `Watch.Registry.Exec` | src/commands/commands.cpp:5505-5543 | EXEC runs the queue exactly when the transaction was not spoiled and no watched key was hit since its watch was placed; the whole new state of the connection; and of every other connection nothing changes but the flag, which is set exactly if it was or the queue ran and a command of it changed a key the connection watches. |
| `Watch.Registry.Touch` | src/commands/commands.cpp:3126-3134 | A write to a key marks exactly the connections that watch it; the flag of every connection still says whether one of its keys was hit. |
| `Watch.Registry.TouchAll` | src/commands/commands.cpp:3137-3143 | A flush marks exactly the connections that watch anything. |
| `Watch.TouchKeeps` | src/commands/commands.cpp:3126-3143 | Marking the watchers of an event keeps every flag equal to its meaning over the whole history. |
| `Watch.Registry.WatchKeys` | src/commands/commands.cpp:5545-5557 | WATCH adds the keys, each from now on unless it was watched before; refused inside MULTI without spoiling it. |
| `Watch.Registry.ClearConn` | src/commands/commands.cpp:3158-3164 | WATCH is undone: the connection watches nothing and is on no key’s list; lists that become empty are dropped. |
| `Watch.Registry.Unlink` | src/commands/commands.cpp:3146-3155 | Takes the connection off one key’s list. |
| `Watch.Registry.RunCmd` | src/commands/commands.cpp:6134-6165 | A command that changed data marks exactly the connections that watch a key it names, any of them, and a flush exactly those that watch anything; a command that changed nothing marks none, and nothing else of a connection changes. |
| `Watch.Registry.Discard` | src/commands/commands.cpp:5494-5503 | DISCARD drops queue and watches; outside MULTI it does nothing. |
| `Watch.Registry.Close` | src/server/server.cpp:104-119 | A closed connection is on no key’s list. |

## Left out

Members stated for less than the code accepts, or on a simpler state:

- Replication.StepKeeps: assumes the star described above, because the promise fails outside it. The condition is one way: a run outside the star need not diverge. Chained replicas are not claimed.
- Replication.Reached: new replication ids are ones never used before, and FAILOVER with FORCE is not a step of the protocol model. What a failed load leaves behind is any data.
- Datasets.DataFollows: a dataset is the commands that lead to it; what expiry and eviction on a server's own clock do to it is not modelled.
- Replication.NeverMalformed: assumes that every frame written is one the parser takes; SPOP of more than 65534 members writes one it does not, and `Jams` says what happens then.
- Failover.Server.DoRequest: which requests are writes is given, and so is whether a watched key was hit. The minimum-replicas test, ACLs and commands that may not be queued are not modelled; REPLICAOF is an event of its own (SetRole).
- Failover.Server.DoExec: that a transaction runs all of its writes or none is said of queues without FAILOVER; with one, each write of the queue is still answered as the gate says at that moment.
- Failover.Server.Start: the arguments of FAILOVER are already read; the errors of reading them are not modelled.
- Failover.Server.Cron: whether the target can be dialled is given.
- Failover.Server.ExactlyOnce: a write parked on a connection that is closing is dropped and does not run, as in the source.
- Failover.Server.ConnResume: which peers are found gone when a connection is flushed is given, the same for all flushes of one event, and a connection that has no reply to send is flushed too.
- WriteLog.EffectPreserved: the request, the log writer and the replay read the same clock here; `Restart` lets the replay be later. 64-bit arithmetic wraps, which is what the hardware does where C++ leaves signed overflow undefined. Commands logged verbatim are not modelled. Of a frame of more than 2^32 bytes, whose size comes out positive again, nothing is said.
- Restart.RunExact: the wall clock is not set while a server runs, so it keeps in step with the monotonic clock; eviction and commands logged verbatim are not modelled.
- Keyspace.Db.Run: the keyspace is a map from keys to values and deadlines; the hash map and the expiry heap behind it are verified on their own.
- HashMap.HMap.Insert: fewer than 2^60 nodes, so that the bucket count fits a 64-bit mask. The comparison of nodes is any function of the node; the memory counter elem_bytes is not modelled.
- Scan.ScanTables: the callback collects the nodes it is given.
- ScanExact.ScanTimes: of tables that stay as they are; how often a node is reported while they change is said call by call (ScanExact.CallTimes) and not of a whole scan.
- Avl.Fix: heights and counts are unbounded numbers, where the source has 32 bits.
- ZSets.ZSet.Insert: the name index is a map; the hash map is verified on its own. Scores are reals and the two infinities, without NaN, which the commands refuse.
- ZRange.Emit: the members in reply order, not the reply bytes.
- ZRange.RemRange: ranges are not reversed, as the command never asks for that.
- Requests.HandleRead: requests are collected instead of executed; TLS records and errors of the socket are not modelled.
- Requests.LoadFile: whether the image loads and whether replayed commands answer with an error are given; the file is a string, and cutting it is its new size.
- Rdb.ImageRoundTrip: each string and each number of members is less than 2^32, the width of its length field; the compressor is any pair in which decompressing gives back what was compressed, within the ratio the loader accepts.
- Snapshots.StoreRoundTrip: a score is its eight bytes, and the hash tables the members are kept in are maps and sets.
- Damage.DamageFound: the changed bytes lie before the checksum or within it; a change across the border is not covered.
- Entries.EntriesExact: of entries none of which has expired; an expired hash or set is skipped without being checked, as in the source.
- RdbFile.Cursor.LoadOne: the loaders of the member types are one method over the kind of member.
- Keyspace.Db.SPop: which members are picked is left open.
- TtlHeap.Timers.SetTtl: deadlines are unbounded numbers; an entry's heap index is a map from entries.
- Deques.Deque.PopFront: strings that were moved from keep their old value in the freed slot; byte accounting is not modelled.
- Lists.DoLrem: the most negative count, whose negation overflows, is treated as its magnitude.
- Watch.Registry.Exec: on a master; writes that arrive at a replica from its master are not modelled.
- Watch.Registry.RunCmd: which keys a command names and whether it changed data are given.

Parts of the repository that are not modelled:

- Reply encoding, command tables, arity errors, ACLs, AUTH, TLS, sockets and the event loop.
- Pub/sub, keyspace notifications, slow log, audit log, INFO, CONFIG, glob matching and introspection commands.
- Eviction: sampling, LRU and LFU counters, memory accounting.
- AOF rewriting, fsync policies, background saves and file renames.
- String, bitmap, counter and hash commands whose model would only repeat a map update.
- WAIT and replica lag, and that a failover ever completes.
- zset_seekge, zset_seekle, hm_foreach and hm_random.
