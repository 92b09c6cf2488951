# Verified model of the lsmcd cores

lsmcd is a memcached-compatible server with its own locks, allocators, hash table, event
multiplexing, buffered output and master/slave replication. This project models those
cores in Dafny and proves what they are relied on for. Verify everything with

    dafny verify dfyconfig.toml

Each file is one module; the ones that build on each other are listed together.

| files | what they model |
|---|---|
| `FutexMutex` | the three-state futex mutex: any number of threads, every interleaving of its atomic steps, blocked threads woken late or spuriously |
| `PidFutex`, `PidSpin` | the two locks whose word holds the owner's PID; processes may die at any step |
| `RoleProtocol` | the master flip and election of one slice in a fixed group: FIFO channels, stale tables, timers, arbitrary scan order |
| `TidLog`, `TidTable`, `TidReplay`, `TidWire`, `TidShipping`, `Mirroring`, `Replication` | the transaction log of a slice and the table behind it, its packets, shipping in bounded buffers, replay with the lookahead, what one delivered batch does to a slave, and whole runs of a master and a slave with broadcasts, answers to pings, broken connections and reads at the slave |
| `ItemSpec`, `ItemStore` | what the memcached update commands do to a slice, and the same commands on the bytes of the items |
| `Forwarding` | forwarding of commands to the masters of their slices, the wait queue and its drain |
| `SessionPool`, `GlobalPool` | the two allocators: carving, free lists, splitting, giving up, reallocation |
| `HashTable` | the chained hash table |
| `XxHash`, `XxKernels` | one-shot and streaming xxHash over an abstract kernel, and the 32- and 64-bit kernels, whose constants `PublishedDigests` pins down |
| `PollSlots`, `EpollInterest` | the slot table for poll(2), and deferred epoll updates |
| `BufferedOutput` | the buffered stream and the output side of a client connection |
| `NodeCodec` | the encoding of node status records |

Protocols are state machines over single steps, with `Runs` for finite runs; a safety
theorem speaks of every state that some run reaches. Objects that the program updates in
place are classes with the same fields, and their methods are specified through an
abstract value (a map of live blocks, a finite map, a stream of bytes, a log). Links between
elements that the program threads through memory are fields too, and a `Chain` or `Linked`
predicate ties them to a sequence; where a free list is only ever used at its ends it is a
sequence.

## Where the code falls short

These properties hold only under a condition; the condition is proved exact, or an input
that breaks the property is given, or both.

- **Two ways to a slave.** Broadcasts start from one TID kept for all peers, answers to pings
  from the TID in the ping, and neither looks where the slave stands
  (src/lcrepl/usockmcd.cpp:252-268, src/lcrepl/lcreplreceiver.cpp:251-287,
  src/lcrepl/lcreplsender.cpp:112-148). The replay drops a batch whose first packet is not above
  the slave's last TID and takes any other (src/memcache/lsmemcache.cpp:1184-1190), so a dropped
  batch is followed by one that leaves a gap. `Replication.MirrorsExactly`: over all runs the slave
  mirrors the master if and only if no batch it takes leaves a gap behind its last TID, and
  every batch brings it to the batch's end if and only if each starts where the slave stands or
  has nothing it lacks. `Replication.SyncedSlaveLoses` is a run that ends with equal last TIDs
  and an item missing, and `Replication.LostForGood` shows that nothing ever makes up for it. The
  condition also covers a fresh slave that gets a broadcast before its first ping is answered,
  and an answer cut off after ten rounds. `Replication.StreamGapFree` gives a schedule without
  gaps: broadcasts alone, over a connection that stands from the first write on.
- **Reads at a slave.** A slave answers reads itself and erases an item it finds expired
  (src/memcache/lsmemcache.cpp:1571-1576 and 3173-3177); on a slave nothing is logged for it
  (src/shm/lsshmtidmgr.cpp:106-116), so the slave lacks an item the master may still have, and the
  entry of its own last TID may be gone. `Replication.ReaderErases` is such a run. Mirroring is
  therefore meant apart from the TIDs lapsed in this way: `Replication.SlaveConverges` shows that
  the stores agree but for these, that each of these items has expired by the slave's clock, and
  that readers at the slave cannot tell.
- **The TID table.** A block of the table is looked up as if the blocks since the last clear
  stood for consecutive runs of 1024 TIDs (src/shm/lsshmtidmgr.cpp:340-353).
  `TidTable.SlaveExactly`: a table filled in ascending order finds its entries if and only if no
  run is passed over, the first included, so a slave whose first packet has a TID of 1024 or
  more (`TidTable.LateJoiner`) cannot find the items that removals name. `TidTable.MasterExactly`:
  a master's does over a whole run if and only if no clear comes while the last TID is the last
  of its run. `Replication` takes an entry asked for to be found; `Replication.TablesFind` says for
  which runs the two tables see to that, and `Replication.FirstRunFinds` that all runs below TID
  1024 are among them, so the failing runs given here are too.
- **Replay lookahead.** A slave leaves out a removal when the next packet re-adds "the same
  key", but compares only as many bytes as the removed key has. `TidReplay.LookaheadExactly`
  shows the replay does what the log says, for every part of a batch, exactly when this never
  fires for another key or for a packet out of sequence; `TidReplay.FiresForAnotherKey` says
  when it does, `Mirroring.PlainNeverMisfires` turns it into a condition on the order of the
  master's writes, and `Replication.PrefixDiverges` is a run that ends with the removed key still
  on a slave that has taken everything.
- **Expiry times beyond 32 bits.** `ItemSpec.ExpiryKept`: stored expiry times stay absolute exactly
  as long as no touch has its 32-bit sum wrap around to a time that reads as relative;
  `ItemSpec.TouchWraps` is an input that does.
- **Shared top priority.** `RoleProtocol.SingleMasterExactly`: a group keeps at most one master
  over all runs exactly when its first master has the highest priority or one node alone has it.
- **Small PIDs.** `PidSpin.ExclusionExactly`: the PID spinlock excludes over all runs exactly when
  no PID is below 10 or there is a single process.
- **Cached blocks.** `BufferedOutput.BufferedOS.CacheWritev` reports all bytes as accepted; that is
  true exactly when no empty block stands before a non-empty one after the first
  (`BufferedOutput.CacheContinues`); `BufferedOutput.EmptyBlockLoses` is one that loses a byte, and
  blocks that are all non-empty lose none (`BufferedOutput.FullBlocksSolid`).
- **Large requests.** `SessionPool.BlockSizeFits`: the 32-bit block size has room for the request
  exactly up to 2^32 - 32 bytes; the largest request gets 16 bytes (`SessionPool.LargestWraps`).
- **Headers of large blocks.** The global pool keeps a block's size in 32 bits
  (src/lsr/ls_internal.h:88-92). `GlobalPool.Pool.Pfree`: giving a block back loses nothing if and
  only if its size fits or what is left of it in 32 bits is still that of a large block;
  otherwise the head of the block goes to a list and the rest is lost. A request of 2^32 bytes
  is one (`GlobalPool.HeaderMistaken`).

The code and its own comments differ in one place the model touches: `isSelfMinAddr` is
named as a tie-break by address but always answers yes (src/lcrepl/lcreplgroup.cpp:423-442);
the model follows the code.

## Model

| member | source | states |
|---|---|---|
| FutexMutex.MutexSafety | include/lsr/ls_lock.h:201-231 | over every run at most one holder, the word is 0 exactly when nobody holds the lock, and a sleeper always has the word at LOCKED2, an unlocker about to wake, or a contender still in its loop |
| FutexMutex.StepKeepsSleepers | include/lsr/ls_lock.h:323-328 | no single step, unlock and wake included, strands a sleeper |
| FutexMutex.EveryLockerCanAcquire | include/lsr/ls_lock.h:201-231 | from every reachable state each thread that wants the lock has a continuation in which it gets it, without spurious wake-ups |
| FutexMutex.SomeoneOwesAWake | include/lsr/ls_lock.h:201-231 | if a thread is asleep, a run without a step of its own and without an interrupted wait ends with a FUTEX_WAKE that wakes it |
| PidFutex.PidFutexSafety | include/lsr/ls_lock.h:248-294 | with processes dying at any step a live holder's PID is in the word, so there are never two, and a word in use names a process that owns or died owning the lock |
| PidFutex.AcquireReturn | include/lsr/ls_lock.h:248-271 | the lock call returns a negative PID exactly when it took the lock from that process, which died owning it |
| PidFutex.EveryLiveLockerCanAcquire | include/lsr/ls_lock.h:248-294 | no reachable state strands a live process that wants the lock |
| PidSpin.PidSpinSafety | src/lsr/ls_lock.c:73-105 | with real PIDs a live holder's PID is in the word and the store that resets a bad PID is never reached |
| PidSpin.AcquireReturn | src/lsr/ls_lock.c:73-105 | 0 is returned exactly when the word was free, a negative PID exactly on takeover from its dead owner |
| PidSpin.ExclusionExactly | src/lsr/ls_lock.c:85-90 | exclusion holds over all runs if and only if every PID is at least 10 or there is one process |
| PidSpin.SmallPidBreaksExclusion | src/lsr/ls_lock.c:85-90 | a run to a state in which a PID below 10 holds the lock and another process is about to reset the word, and two steps of that one later both hold it |
| RoleProtocol.HandOverSafety | src/lcrepl/lcreplreceiver.cpp:335-410 | when one other node has the highest priority: at most one master in every reachable state; somebody is master, or a flip is under way with its request or acknowledgement in flight, or the message that ends it is; and a node that has read everything from the new master knows its real role |
| RoleProtocol.HandOverCompletes | src/lcrepl/lcreplgroup.cpp:145-195 | from every reachable state some run makes the highest-priority node master, with nodes taking data up to the TID of the first master and the others hearing of it by pings alone: no hand-over is stuck |
| RoleProtocol.SteadySafety | src/lcrepl/lcreplgroup.cpp:145-195 | when the first master has the highest priority no role ever changes |
| RoleProtocol.SingleMasterExactly | src/lcrepl/lcreplgroup.cpp:372-489 | a single master over all runs if and only if the first master has top priority or the top priority is one node's alone |
| RoleProtocol.SharedTopBreaks | src/lcrepl/lcreplgroup.cpp:339-370 | two nodes sharing the top priority above the first master can both become master |
| RoleProtocol.HandOverMonitor | src/lcrepl/lcreplgroup.cpp:145-195 | during a hand-over the timer either does nothing, starts the flip at the first master, or elects the top node when nobody is master |
| RoleProtocol.RoleExistsMeans | src/lcrepl/lcreplgroup.cpp:320-337 | the scan answers yes exactly when some table entry has the role |
| RoleProtocol.AllSyncedMeans | src/lcrepl/lcreplgroup.cpp:300-318 | the scan answers yes exactly when every TID entry equals the node's own |
| RoleProtocol.HighestMeans | src/lcrepl/lcreplgroup.cpp:339-370 | the running maximum is a node of highest priority, and the start only if nobody outranks it |
| RoleProtocol.LegalMeans | src/lcrepl/lcreplgroup.cpp:395-489 | a node may elect itself exactly when nobody outranks it and no equal has a higher TID |
| TidLog.EntriesMeans | src/memcache/lsmemcache.cpp:1080-1166 | what is shipped between two TIDs is exactly the live entries above the one and up to the other, ascending, each once |
| TidLog.EntriesSplit | src/memcache/lsmemcache.cpp:1080-1116 | shipping in two parts, resumed from the TID reached, equals shipping at once |
| TidLog.EraseSequenced | src/shm/lsshmtidmgr.cpp:106-116 | an erase on the master keeps items and log entries in agreement and removed TIDs cleared, and makes the last TID an entry |
| TidLog.ApplySequenced | src/shm/lsshmtidmgr.cpp:127-168 | applying an entry on a slave keeps the same shape of log, also after items have lapsed there |
| TidLog.ShipFollows | src/lcrepl/replshmhelper.cpp:94-127 | a slave that gets the entries up to q holds every item the master wrote by then and keeps, but those that have lapsed on it, and no other except ones whose removal is still to come |
| TidLog.CaughtUp | src/lcrepl/replshmhelper.cpp:94-127 | a slave that was sent the whole log has exactly the master's items, values and TIDs, but those that have lapsed |
| TidLog.ResumeFollows | src/lcrepl/lcreplsender.cpp:112-117 | sending from the slave's own last TID continues what it was sent before |
| TidLog.LapseFollows | src/shm/lsshmtidmgr.cpp:183-192 | an item erased by a reader at a slave, whose entry is cleared and nothing logged, leaves the slave following the master apart from that TID |
| TidLog.EraseAllSequenced | src/memcache/lsmemcache.cpp:1137-1145 | erasing expired items keeps the log in order, and the first erase makes the last TID an entry even where it was none |
| TidTable.SlaveExactly | src/shm/lsshmtidmgr.cpp:293-325 | after entries in ascending order every block is where the look-up expects it if and only if no run of 1024 TIDs was passed over, from where the table begins |
| TidTable.MasterExactly | src/shm/lsshmtidmgr.cpp:44-80 | over every run of changes and clears that use each TID, the same holds throughout if and only if no clear comes while the last TID is the last of its run |
| TidTable.LateJoiner | src/shm/lsshmtidmgr.cpp:340-353 | a first entry is where the look-up expects it if and only if its TID is below 1024 |
| TidTable.Table.FindsExactly | src/shm/lsshmtidmgr.cpp:340-353 | every entry is found if and only if each block with entries stands at the place counted from the last clear |
| TidTable.Table.SetTidTblEnt | src/shm/lsshmtidmgr.cpp:293-325 | an entry is set under the next TID or one above the last, else refused; the others stay |
| TidTable.Table.ClrTidTblEnt | src/shm/lsshmtidmgr.cpp:328-337 | exactly the slot the look-up ends in is cleared: the entry asked for when it is found, which may be another's when not |
| TidTable.Table.ValueOf | src/shm/lsshmtidmgr.h:102-112 | the entry under a TID, when the look-up finds its block or the blocks are contiguous |
| TidTable.Table.NxtTidTblVal | src/shm/lsshmtidmgr.cpp:356-385 | the lowest entry above a TID if and only if no block before the one looked up has an entry above it |
| TidTable.Table.ClrTidTbl | src/shm/lsshmtidmgr.cpp:44-80 | the table is empty but for the clear that a master logs under the next TID |
| Mirroring.DeliveryExactly | src/memcache/lsmemcache.cpp:1184-1190 | a batch delivered to a slave that mirrors the master keeps it so exactly when it is dropped or leaves no gap, and brings it to the batch's end exactly when it starts where the slave stands or has nothing it lacks |
| Mirroring.GapLoses | src/memcache/lsmemcache.cpp:1184-1190 | a batch taken over a gap leaves an entry of the master's log out of the slave's |
| Mirroring.TakeFrom | src/memcache/lsmemcache.cpp:1169-1212 | a batch packed at some earlier moment, though the master has changed since, brings a slave it joins to its end |
| Mirroring.PlainNeverMisfires | src/memcache/lsmemcache.cpp:1245-1253 | a batch in which no removal is directly followed by an addition whose key and value bytes begin with the removed key, unless it is that key, trips the lookahead on no slave; the removed key is the one the master once wrote under the TID removed |
| Mirroring.PackedOk | src/memcache/lsmemcache.cpp:1080-1166 | a batch just packed has exactly what the master's log has between its ends |
| Mirroring.LapseMirrors | src/shm/lsshmtidmgr.cpp:183-192 | an item that lapses leaves a mirroring slave a mirror apart from that item's TID |
| TidReplay.ReplayTakesPrefix | src/memcache/lsmemcache.cpp:1169-1212 | exactly the longest in-sequence prefix is taken, TIDs strictly increase, the last TID is that of the last packet taken |
| TidReplay.SkipReplaces | src/memcache/lsmemcache.cpp:1224-1257 | leaving a removal to the addition of the same key ends in the same store and log |
| TidReplay.LookaheadSound | src/memcache/lsmemcache.cpp:1224-1257 | without misfires replay equals applying every entry, removals included |
| TidReplay.LookaheadExactly | src/memcache/lsmemcache.cpp:1245-1253 | every part of a batch replays as the log says if and only if the lookahead never fires for another key or out of sequence |
| TidReplay.FiresForAnotherKey | src/memcache/lsmemcache.cpp:1249-1250 | it fires wrongly exactly when one key is a proper prefix of the other and, if the next key is the shorter, the bytes after it continue the removed key |
| TidWire.DecodeAdd | src/memcache/lsmemcache.cpp:1259-1273 | an addition packed at the start of a buffer is read back as it was |
| TidWire.DecodeRem | src/memcache/lsmemcache.cpp:1276-1286 | a removal packed at the start of a buffer is read back as it was |
| TidShipping.HoldsParses | src/memcache/lsmemcache.cpp:1169-1212 | a buffer of packed entries, wherever it is received, parses to exactly those entries and its length is the sum of their sizes |
| TidShipping.Slice.GetNxtTidItem | src/memcache/lsmemcache.cpp:1119-1166 | the first unexpired entry above a TID, or minus its size when it does not fit; only expired items are erased, none of them below that TID |
| TidShipping.Slice.TidGetNxtItems | src/memcache/lsmemcache.cpp:1080-1116 | the buffer holds exactly the log's entries above the start and up to the TID returned; either that is all or the next entry does not fit in what is left |
| TidShipping.Slice.BcastNewTidData | src/lcrepl/replshmhelper.cpp:94-127 | the messages are the log's entries in order, none skipped or repeated; a retry's buffer is always large enough, so with the clock standing still the whole log or at least five messages go out |
| TidShipping.Slice.ApplyPacket | src/memcache/lsmemcache.cpp:1215-1257 | one packet, looking ahead at the bytes that follow, makes the step of the replay |
| TidShipping.Slice.TidSetItems | src/memcache/lsmemcache.cpp:1169-1212 | a received buffer is replayed and the result is the sum of the sizes of the packets taken |
| Replication.MirrorsExactly | src/lcrepl/lcreplreceiver.cpp:251-287 | over all runs of changes, broadcasts, pings, answers, broken connections and reads at the slave, without misfires and with the TID tables finding what they hold: the slave mirrors the master apart from lapsed items throughout if and only if no batch it takes leaves a gap, and every batch brings it to its end if and only if each starts where the slave stands or has nothing it lacks |
| Replication.SlaveConverges | src/lcrepl/usockmcd.cpp:252-268 | with plain batches, no gaps and TID tables that find what they hold the slave mirrors the master throughout; its log is in order, and complete unless its last TID has lapsed; equal last TIDs mean the master's items but for the lapsed, each of them expired by the slave's clock, and the same answers to readers |
| Replication.StreamGapFree | src/lcrepl/lcreplsender.cpp:119-148 | a slave connected from the first write on, with its pings unanswered and its connection unbroken, takes every batch without a gap, and has everything up to the tracker's TID once it has taken all |
| Replication.ReaderErases | src/memcache/lsmemcache.cpp:1571-1576 | a run without gaps and of plain batches that ends with equal last TIDs, nothing in flight, an item of the master missing on the slave in every continuation, and the slave's last TID without an entry |
| Replication.SyncedSlaveLoses | src/lcrepl/lcreplsender.cpp:112-148 | a run from an empty group, with both TID tables in order, that ends with equal last TIDs, nothing in flight and an item missing on the slave, in every continuation |
| Replication.LostForGood | src/memcache/lsmemcache.cpp:1184-1190 | an item under a TID the slave has passed without taking it never reaches the slave in any continuation |
| Replication.PlainRunClean | src/memcache/lsmemcache.cpp:1245-1253 | runs whose batches are plain when packed have no misfire at any delivery |
| Replication.StepInv | src/lcrepl/replshmhelper.cpp:94-127 | every step, reads at the slave included, keeps batches in flight in step with the master's log and lapsed items expired, and a step that delivers nothing keeps a mirroring slave mirroring |
| Replication.BufferIsPacked | src/memcache/lsmemcache.cpp:1080-1116 | a packed buffer, received intact, is the batch of one round of a broadcast or an answer |
| Replication.FirstRunFinds | src/shm/lsshmtidmgr.cpp:340-353 | along every run that ends below TID 1024 the TID tables of both nodes find every entry |
| Replication.PrefixDiverges | src/memcache/lsmemcache.cpp:1249-1250 | a run after which a slave that has taken everything still holds a removed key |
| ItemSpec.DecimalReadBack | src/memcache/lsmemcache.cpp:3900-3909 | a number written by an arithmetic command is read back as that number |
| ItemSpec.ArithmeticMeans | src/memcache/lsmemcache.cpp:1693-1719 | incr stores the decimal of the sum modulo 2^64, decr of the difference or 0; flags and expiry are kept, other items untouched, a non-number changes nothing |
| ItemSpec.CasDistinct | src/memcache/lsmemcache.h:479-483 | over every run cas values are pairwise distinct, positive and at most the slice's counter |
| ItemSpec.SameCasUnchanged | src/memcache/lsmemcache.cpp:1681-1686 | an item with the same cas value before and after a run had the same value and flags all the way through |
| ItemSpec.TokenGuards | src/memcache/lsmemcache.cpp:1654-1686 | an update with a token is carried out exactly when the item is live and still has that cas, and then nothing rewrote it since the token was read |
| ItemSpec.ExpiryKept | src/memcache/lsmemcache.h:572-577 | stored expiry times stay absolute if and only if the command is not a touch whose 32-bit sum wraps to a small time |
| ItemSpec.TouchWraps | src/memcache/lsmemcache.h:572-577 | a touch in the last second of 32 bits stores an expiry time long past |
| ItemStore.Fill | src/memcache/lsmemcache.cpp:1036-1077 | the writes to an element change header, cas and value bytes and nothing else |
| ItemStore.Store.DataItemUpdate | src/memcache/lsmemcache.cpp:1036-1077 | the element found for a command becomes the entry the command asks for, under the next cas value |
| ItemStore.Store.FindForUpdate | src/memcache/lsmemcache.cpp:1654-1686 | absent, expired and erased, wrong token, or found; without cas in use the token is compared with the bytes of the value |
| ItemStore.Store.DoSet | src/memcache/lsmemcache.cpp:1872-1876 | set on the bytes is set on the map |
| ItemStore.Store.DoAdd | src/memcache/lsmemcache.cpp:1623-1651 | add writes exactly when no live item is there |
| ItemStore.Store.DoReplace | src/memcache/lsmemcache.cpp:1688-1692 | replace and cas on the bytes are replace and cas on the map |
| ItemStore.Store.Extend | src/memcache/lsmemcache.cpp:1720-1738 | growing, moving up and writing joins old and new value in the right order, flags and expiry kept |
| ItemStore.Store.DoExtend | src/memcache/lsmemcache.cpp:1882-1891 | append and prepend on the bytes are append and prepend on the map |
| ItemStore.Store.DoArith | src/memcache/lsmemcache.cpp:2006-2087 | incr and decr on the bytes are incr and decr on the map |
| ItemStore.Store.DoDelete | src/memcache/lsmemcache.cpp:2144-2168 | delete removes the item and reports whether it was live |
| ItemStore.Store.DoTouch | src/memcache/lsmemcache.cpp:2209-2238 | touch changes the expiry time only, kept in 32 bits, and keeps the cas value |
| Forwarding.Forwarder.AnsweredInOrder | src/memcache/memcacheconn.cpp:360-439 | every client's answers are a prefix of its commands in the order issued; while one is missing some master is still to reply, and the client waits for it or is queued, at most once |
| Forwarding.Forwarder.OneOutstanding | src/memcache/lsmemcache.h:587-599 | a master has at most one command to answer, and it is the one its linked client waits for |
| Forwarding.Forwarder.FwdCommand | src/memcache/lsmemcache.cpp:294-315 | forwarding keeps the discipline and marks client and slice |
| Forwarding.Forwarder.Reply | src/memcache/lsmemcache.cpp:318-348 | a reply goes to the client that issued the command the master answered, as its next answer |
| Forwarding.Forwarder.PutWaitQ | src/memcache/lsmemcache.cpp:730-743 | a connection is queued last, or left where it is when queued already; the flag says which |
| Forwarding.Forwarder.ProcessWaitQ | src/memcache/lsmemcache.cpp:746-761 | a drain tries every queued client once, in order, and those queued again keep their order |
| Forwarding.Forwarder.ProcessIncoming | src/memcache/memcacheconn.cpp:360-439 | a client's commands are answered or forwarded until none is left or the client is queued; a client is queued only with commands left or when it was waiting before |
| SessionPool.BlockSizeFits | src/lsr/ls_xpool.c:258-287 | the block size has room for the request exactly up to 2^32 - 32 bytes |
| SessionPool.LargestWraps | src/lsr/ls_xpool.c:258-287 | the largest 32-bit request gets a block of 16 bytes |
| SessionPool.EveryByteOnce | src/lsr/ls_xpool.c:458-473 | every byte of every superblock belongs to exactly one block |
| SessionPool.CutTiled | src/lsr/ls_xpool.c:372-450 | carving a block keeps the superblocks tiled |
| SessionPool.Pool.EveryByteAccounted | src/lsr/ls_xpool.c:300-450 | every byte is in exactly one block, which is live, on the exact-size free list, on the small or large list with at least 272 bytes, the pool's own, or given up |
| SessionPool.Pool.Alloc | src/lsr/ls_xpool.c:258-287 | a new block apart from all others with room for the request; no other block's bytes change |
| SessionPool.Pool.GetABlk | src/lsr/ls_xpool.c:372-450 | a block is found exactly when one of the first four on the list is large enough; otherwise each of them stays, moves to the small list or is given up as its misses say |
| SessionPool.Pool.TakeFrom | src/lsr/ls_xpool.c:396-421 | the end of a block is handed out and the rest stays on its list or moves to the small one, or the whole block is when too little would be left |
| SessionPool.Pool.BlkGet | src/lsr/ls_xpool.c:333-369 | a new superblock is taken only when neither list offers a block, and the large list is left alone when the small one does |
| SessionPool.Pool.BigAlloc | src/lsr/ls_xpool.c:476-498 | a block of its own for a large request |
| SessionPool.Pool.Free | src/lsr/ls_xpool.c:521-561 | exactly the freed block goes away: released if and only if it is a big block, otherwise onto the list of its size, or given up in a pool that does not free |
| SessionPool.Pool.Realloc | src/lsr/ls_xpool.c:300-330 | the old bytes are kept up to the smaller size and no other block changes |
| SessionPool.Pool.Write | src/lsr/ls_xpool.c:258-287 | writing within a live block changes that block alone |
| GlobalPool.ClassHolds | src/lsr/ls_pool.c:113-140 | the list a request is served from holds blocks large enough for it: 16(i+1) bytes, or 1024(i+1) and the skew |
| GlobalPool.Pool.EveryByteAccounted | src/lsr/ls_pool.c:625-760 | every byte taken from the system is in exactly one block, which is live, on the list of exactly its size, the chunk, or lost behind a wrapped header |
| GlobalPool.Pool.LiveApart | src/lsr/ls_pool.c:336-350 | blocks with callers do not overlap |
| GlobalPool.Pool.ChunkAlloc | src/lsr/ls_pool.c:625-695 | room for at least one and at most the blocks wanted; nothing if and only if the chunk is too short, every list searched is empty and the system refuses twice; the recursion ends |
| GlobalPool.Pool.FreelistAlloc | src/lsr/ls_pool.c:698-717 | the chunk becomes a block at least as large as asked, or no list searched has one |
| GlobalPool.Pool.Refill | src/lsr/ls_pool.c:720-760 | one block for the caller; the other blocks carved, twenty in all at most, end the list in the order of their addresses; none if and only if chunk, lists and system all fail |
| GlobalPool.Pool.Palloc | src/lsr/ls_pool.c:232-267 | a new block with room for the request, or nothing changes for the callers |
| GlobalPool.Pool.Pfree | src/lsr/ls_pool.c:407-431 | exactly that block goes away, to the list of the size in its header or, above 65536 bytes, back to the system; nothing is lost if and only if the size fits 32 bits or what is left of it there is above 65536 |
| GlobalPool.Pool.Prealloc | src/lsr/ls_pool.c:514-543 | the block returned is large enough, begins with the old bytes as far as both go, or as the old header tells if it had wrapped to a small size, and takes the old one's place; other blocks keep their bytes; on failure nothing changes |
| GlobalPool.HeaderMistaken | src/lsr/ls_internal.h:88-92 | a request of 2^32 bytes has a header that tells a small block |
| HashTable.FindRange | src/lsr/ls_hash.c:70-79 | the prime found is large enough or the last, and every prime before it from the second on is too small |
| HashTable.HasNextMeans | src/lsr/ls_hash.c:344-369 | a table can grow if and only if it has at most 402653189 buckets; the sizes beyond do not fit the `int` |
| HashTable.FlatOnce | src/lsr/ls_hash.c:249-291 | the buckets' chains hold every listed element exactly once |
| HashTable.Table.VisitsOnce | src/lsr/ls_hash.c:249-291 | begin and then next until null visits every element exactly once, as many as the stored size |
| HashTable.Table.Find | src/lsr/ls_hash.c:437-454 | the element with the key, or null exactly when the key is absent |
| HashTable.Table.Insert | src/lsr/ls_hash.c:502-510 | a new key is added to the map, a key already there is refused |
| HashTable.Table.Insert2 | src/lsr/ls_hash.c:457-476 | the new key is added; the table grows to the prime two further on exactly when it is over its load and memory is found |
| HashTable.Table.Update | src/lsr/ls_hash.c:513-525 | the key maps to the new data afterwards; other keys are untouched |
| HashTable.Table.Erase | src/lsr/ls_hash.c:400-424 | exactly the element's key goes away |
| HashTable.Table.Rehash | src/lsr/ls_hash.c:344-369 | relinking every element into the larger table keeps the map, the size and every element but its link |
| HashTable.Table.Clear | src/lsr/ls_hash.c:379-397 | the map is empty, the size 0 |
| HashTable.Table.Next | src/lsr/ls_hash.c:276-291 | the next element along the chain or of the next bucket in use, also while a rehash moves elements out |
| XxHash.StripesSplit | src/lsr/xxhash.c:590-679 | running the stripes of two parts one after the other equals running them together when the first part is whole stripes |
| XxHash.OneShot | src/lsr/xxhash.c:256-330 | the one-shot loops compute the hash of the input |
| XxHash.Stream.Update | src/lsr/xxhash.c:590-679 | the state absorbs exactly the new bytes behind those absorbed before |
| XxHash.Stream.Digest | src/lsr/xxhash.c:694-731 | the hash of all bytes absorbed, leaving the state as it was |
| XxHash.HashInPieces | src/lsr/xxhash.c:590-731 | for every seed and every split into updates the digest is the hash of the whole, and every digest in between the hash of the bytes so far |
| XxKernels.Xxh32InPieces | src/lsr/xxhash.c:256-330 | streaming and one-shot agree for XXH32 |
| XxKernels.Xxh64InPieces | src/lsr/xxhash.c:363-472 | streaming and one-shot agree for XXH64 |
| PollSlots.ChainMeans | src/edio/pollfdreactor.h:39-57 | the chain of holes is without cycles and repetitions and fixed by the fields it is read from |
| PollSlots.PollTable.GetAvail | src/edio/pollfdreactor.h:39-57 | a slot nobody holds, below the new end; chain entries beyond the end are dropped, and the arrays grow only when no hole is left |
| PollSlots.PollTable.Allocate | src/edio/pollfdreactor.cpp:36-60 | growing keeps every handler in its slot and points it into the new array |
| PollSlots.PollTable.Add | src/edio/pollfdreactor.h:84-94 | the handler gets a slot in no use, a hole while there is one, and all others keep theirs |
| PollSlots.PollTable.Remove | src/edio/pollfdreactor.cpp:91-121 | only the handler's own slot is given up; the end moves down over holes alone, to just past a slot in use |
| EpollInterest.Epoll.AppendEvent | src/edio/epoll.cpp:415-423 | a descriptor is flagged exactly when it is on the list, once |
| EpollInterest.Epoll.UpdateEvents | src/edio/epoll.cpp:139-151 | the wanted mask changes, the kernel's does not yet, and a difference is on the list |
| EpollInterest.Epoll.ApplyEvents | src/edio/epoll.cpp:369-412 | afterwards the kernel has the wanted mask of every descriptor and the list is empty |
| EpollInterest.Epoll.Add | src/edio/epoll.cpp:102-136 | a new reactor is known to index and kernel at once; a descriptor out of range is refused |
| EpollInterest.Epoll.Remove | src/edio/epoll.cpp:164-203 | a reactor leaves index and kernel at once, whatever is on the list |
| EpollInterest.Epoll.Reserve | src/edio/reactorindex.h:46-62 | the index grows as needed and keeps its entries |
| BufferedOutput.CacheContinues | src/edio/outputbuf.cpp:30-74 | what is cached continues where the writing stopped; it is all that is left exactly when no empty block stands in between |
| BufferedOutput.EmptyBlockLoses | src/edio/outputbuf.cpp:30-74 | of three blocks with an empty one in the middle the last is not cached |
| BufferedOutput.FullBlocksSolid | src/edio/outputbuf.cpp:30-74 | blocks that are all non-empty have no gap, however much of them was written |
| BufferedOutput.BufferedOS.CacheBlocks | src/edio/outputbuf.cpp:30-74 | the loops append exactly those bytes and count them |
| BufferedOutput.BufferedOS.WriteEx | src/edio/bufferedos.cpp:38-56 | sent and buffered bytes together grow by exactly the bytes accepted; without an error and with caching allowed all are |
| BufferedOutput.BufferedOS.WritevEx | src/edio/bufferedos.cpp:77-106 | the same for blocks, with what was buffered going first |
| BufferedOutput.BufferedOS.CacheWritev | src/edio/bufferedos.cpp:59-68 | what is reported as accepted was accepted exactly when the blocks have no gap |
| BufferedOutput.BufferedOS.Flush | src/edio/bufferedos.cpp:109-130 | bytes move down, none is lost or reordered; the result is what is still buffered |
| BufferedOutput.Conn.SendBuff | src/memcache/memcacheconn.cpp:524-541 | the whole message is sent or buffered in order, nothing overtakes what is buffered |
| BufferedOutput.Conn.Flush | src/memcache/memcacheconn.cpp:544-568 | block by block in order; write interest is on exactly when bytes remain |
| BufferedOutput.Conn.AppendOutput | src/memcache/memcacheconn.h:67-76 | the message follows everything given before |
| NodeCodec.ColumnRoundTrip | src/lcrepl/lcnodeinfo.cpp:198-208 | a column of integers is read back as it was |
| NodeCodec.Serialize | src/lcrepl/lcnodeinfo.cpp:190-208 | the encoding has the length `totalSize` says |
| NodeCodec.Deserialize | src/lcrepl/lcnodeinfo.cpp:210-243 | a record in memory comes back when the stated length is its size and is refused for any other |
| NodeCodec.DeserializeStatic | src/lcrepl/lcnodeinfo.cpp:64-101 | the same for the addresses of a node |

## Left out

- Sockets, listeners, daemonising, signals, configuration, logging, statistics, SASL and the parsing of command lines: input and output, or easy members.
- Shared memory: its hash stands as a finite map. Allocation in shared memory always succeeds, and size limits and trimming are not modelled (a `set` of an oversized value also erases the old item); the code trims on the master only.
- TidLog, TidShipping and Replication: an entry is looked up in an ordered log, so an entry asked for is found; `TidTable` says exactly when the table does so.
- TidTable: the links between blocks are their order, and the counts of entries in a block are left out.
- RoleProtocol: disconnects, rejoining and `flipSelfBeMstr`; the group is fixed and fully connected.
- PidFutex.PidFutexSafety: the word is its PID and its waiter bit side by side; threads of one process sharing a PID are not modelled, nor is a PID used again.
- TidShipping.Slice.BcastNewTidData: the master's store changes only between calls; within one, as the lock is released between rounds, `Replication` has the interleavings. The clock is read once a round.
- TidShipping.Slice.TidSetItems: packets whose size field disagrees with their fields are not modelled; a comparison that runs past the known memory counts as a mismatch.
- Replication: one slave and one slice; clocks do not go back; replacing an item appears as its erase and its insertion; fewer than 2^63 - 1 TIDs are used; a connection delivers in order or breaks; the slave knows the master's node record, without which it ignores data, and neither changes its role.
- ItemStore.Store.DataItemUpdate: the time of an item's last access, which a small expiry time is added to, is the current time.
- ItemStore: the header offset is always set, and the counter stays below 2^64.
- Forwarding: closing of connections, protocol detection at the head of `processIncoming`, failing sends, the flush and clear commands, and a slice changing its master.
- SessionPool and GlobalPool: the thread-safe and valgrind configurations. `SessionPool` takes the system allocator to succeed, keeps big blocks in a set rather than a list, and has no `destroy` or `reset`.
- GlobalPool: the slab entry points, list freeing and pending lists; free lists are sequences, and the bytes of live blocks are kept beside the blocks, which are proved disjoint.
- GlobalPool.Pool.Palloc: requests above 2^64 - 32 bytes, whose `size_t` would wrap.
- GlobalPool.Pool.Pfree: a block whose header has wrapped to 0, for which the code indexes a list before the first.
- HashTable: keys are compared by value; the variants for integer keys, the iteration callbacks and growth beyond 1610612741 buckets, the last prime on the list that the `int` holds.
- XxHash: the total length wraps at 2^64 in the digest only; big-endian and aligned reads are not distinguished.
- PollSlots.PollTable.Add: at most 65535 slots are in use; slot 65535 itself would be taken for the end of the chain once recycled. Pending events are not counted.
- EpollInterest.Epoll.Add: `epoll_ctl` and the growth of the index succeed (the code does not look at the result of `ReactorIndex::set`); descriptors are -1 or not negative; timers do not clear entries.
- BufferedOutput: appending to the ring buffer succeeds; the ring itself is a sequence with a wrap position.
- NodeCodec.Deserialize: memory that is shorter than the count at its head says, which the code reads past.
