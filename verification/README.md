# Verified models of the stateful parts of upsgi

upsgi is a prefork application server written in C. This project models, in Dafny, six of its parts that keep state over
long runs, and proves what each of them promises over every run:

- **The local cache** (`BlockBitmap`, `IndexList`, `CacheTables`, `CacheState`, `CacheLayout`, `LocalCache`): item headers
  linked into hash chains and a recency list by slot number, a stack of free slots, a data area and an optional bitmap of its
  blocks. The concrete tables are shown to refine a finite map with a recency order (`CacheSpec`), operation by operation and over whole
  runs (`CacheRuns`, `CacheRecency`) that the operations determine, block allocation included (`CacheBlocks`), also with the
  sweeper running between other processes' operations (`CacheSweep`), after recovery from stored headers and under
  enumeration (`CacheRecovery`). `CacheLaws` tells what each operation does without naming how.
- **The decoder of chunked request bodies** (`ByteBuffer`, `ChunkedReader`, `ChunkedBody`), against a reference parser of the
  chunked coding of section 7.1 of RFC 9112 without extensions and trailers (`ChunkedFormat`): its answers do not depend on
  how the input is cut into reads. What the server writes in this coding comes back through the decoder (`ChunkedWriter`).
- **The log queue** (`LogQueue`): a bounded queue in front of sinks that accept parts of what they are offered.
- **The scheduler of body reads** (`BodyScheduler`, `BodyLaws`, `Residency`): byte budgets in two lanes, and residency
  quantiles.
- **The offload engines** (`EventQueue`, `OffloadTransfer`, `OffloadOneWay`): relays driven by readiness events.
- **The async loop** (`RunQueue`, `AsyncWaits`, `AsyncLoop`, `AsyncLaws`): waiting descriptors, timers and the queue of ready
  requests, none of which is ever lost.

`Bytes` and `Collections` hold what the parts share.

Objects that the C code updates in place are classes whose methods are proved against specification functions and invariants.
Clocks, socket results, event-queue failures, the answers of log sinks and the behaviour of requests in their turns are
parameters, so each result holds for all of them. The hash of the cache is any fixed function.

Where code and documentation differ, the code is followed: the pipe engine is documented to transfer a given length but reads
until the pipe ends.

Results that hold only under a condition come with the condition proved exact: the coverage of absolute expiries
(`CacheSweep.AbsoluteExpiryCoverage`), the round trip of written size lines (`ChunkedWriter.WrittenDecodes`), the caps of
the log queue while a submit is under way (`LogQueue.Queue.Submit`), the bytes a sized read loses when it is told to wait
(`ChunkedBody.Body.ReadSmart`, `ChunkedBody.LostBytes`), and waiting for a descriptor another request waits for
(`AsyncWaits.AddFd`, `AsyncWaits.LostWait`).

## Model

| member | source | states |
|---|---|---|
| `BlockBitmap.FindFreeBlocks` | core/cache.c:70-146 | returns the leftmost free run of the needed length at or after the scan position, else the leftmost one in the rescanned prefix, and the all-ones value if and only if neither region holds a whole run |
| `BlockBitmap.MissedRunsStraddle` | core/cache.c:93-141 | the only free runs a failing search can have missed are those that begin before the scan position and end behind it, past the end of its byte |
| `BlockBitmap.RoomIsRun` | core/cache.c:93-141 | where the search has something to find, there is a free run of the length, behind the scan position or before the end of its byte |
| `BlockBitmap.NoRunExtends` | core/cache.c:84-141 | after scanning up to bit p with a maximal free suffix shorter than n, no run of n blocks ends in the scanned region |
| `BlockBitmap.RunFound` | core/cache.c:113-126 | the run a scan stops at is free, in range and the leftmost of its length |
| `BlockBitmap.ScanByte` | core/cache.c:96-129 | the byte's eight bits are scanned most significant first, carrying the run across byte boundaries, and the run's byte and bit of origin are those of its first block |
| `BlockBitmap.ScanRegion` | core/cache.c:93-141 | a scan of a byte range finds its leftmost free run or proves there is none |
| `BlockBitmap.MarkBlocks` | core/cache.c:148-182 | exactly the bits of the value's block range become set, however the range lies over bytes; the block count is the rounded-up quotient |
| `BlockBitmap.UnmarkBlocks` | core/cache.c:184-218 | exactly the bits of the value's block range become clear |
| `BlockBitmap.MaskSelects` | core/cache.c:155-178 | the shift-built head, tail and one-byte masks select exactly the bits between the two positions |
| `BlockBitmap.ByteWritten` | core/cache.c:155-178 | or-ing a mask in, or and-ing it out, changes the selected bits of that byte and no other bit of the map |
| `BlockBitmap.InitBitmap` | core/cache.c:253-261 | a new bitmap has every real block free and every padding bit of the last byte set |
| `IndexList.UnlinkKeeps` | core/cache.c:425-440 | taking a slot out of an index-linked list leaves a correctly linked list of the others, ends included |
| `IndexList.AppendKeeps` | core/cache.c:442-455 | appending an unlisted slot gives a correctly linked list with it at the end |
| `CacheState.LruRemove` | core/cache.c:425-440 | the recency list becomes itself without the slot, with both end pointers right |
| `CacheState.LruAdd` | core/cache.c:442-455 | the recency list becomes itself with the slot at the recent end |
| `CacheState.FindSlot` | core/cache.c:364-418 | the chain walk returns the slot of the key, or 0 if and only if the key has none; it ends before the loop alarm's limit on every consistent state |
| `CacheState.ClearItem` | core/cache.c:553-595 | the item's chain is joined around it, the other chains and headers are untouched and the header's fields are cleared |
| `CacheState.DelItem` | core/cache.c:545-607 | all tables agree after a deletion, and the map of the cache lost exactly the deleted key |
| `CacheState.AppendItem` | core/cache.c:749-768 | the new header is linked at the end of the chain of its own hash and nowhere else |
| `CacheState.AddItem` | core/cache.c:679-770 | all tables agree after an insertion, and the map gained exactly the new binding, its recency and its scan time |
| `CacheState.TouchItem` | core/cache.c:466-469 | a touched key moves to the recent end; no binding changes |
| `CacheState.ExpireItem` | core/cache.c:778-785 | only the key's expiry and the next scan time change |
| `CacheState.MoveItem` | core/cache.c:786-806 | after an update moved a value to new blocks, all tables agree, only this key's bytes changed and every other value still reads the same bytes |
| `CacheState.StaleBlock` | core/cache.c:687-692 | a block number that a failed allocation leaves in an unused header disturbs nothing |
| `CacheState.SlotAccounting` | core/cache.c:247-251 | every slot is either on the free stack exactly once with an empty key and on no chain, or on exactly the chain of its own hash with neighbours that point back at it; items and stack pointer add up to the slots |
| `CacheState.BlockAccounting` | core/cache.c:148-218 | with a bitmap, a bit is set exactly when it is padding or a block of a live item; live ranges are pairwise apart and below the block count |
| `CacheState.AbsWellFormed` | core/cache.c:649-847 | the map a consistent state stands for respects the capacity, the key and value limits, and lists each live key exactly once in its recency order |
| `LocalCache.Store.constructor` | core/cache.c:240-261 | a new cache is consistent, stands for the empty map and holds no block |
| `LocalCache.Store.DelSlot` | core/cache.c:553-607 | deletion by slot number removes that slot's key, or nothing if the slot is unused |
| `LocalCache.Store.GetIndex` | core/cache.c:353-418 | a lookup finds exactly the keys of the map, dropping the entry it found if expiry is lazy and it is out of date |
| `LocalCache.Store.Get` | core/cache.c:457-478 | a get refines the map's get: same answer, same new map and recency order |
| `LocalCache.Store.Del` | core/cache.c:545-607 | a delete refines the map's delete, reply included |
| `LocalCache.Store.SweepExpired` | core/cache.c:43-57 | the sweep of a full cache removes exactly the expired keys and counts them |
| `LocalCache.Store.ClearAll` | core/cache.c:63-67 | clearing a full cache removes everything |
| `LocalCache.Store.PurgeHead` | core/cache.c:40-41 | purging removes the least recently used key |
| `LocalCache.Store.CacheFull` | core/cache.c:27-68 | a full cache gives up the oldest entry, then the expired ones when a sweep is due, then everything, as far as each policy is on |
| `LocalCache.Store.Allocate` | core/cache.c:687-701 | the blocks handed out were free and are marked, no other bit changes, and failure means no run was in reach of the scan |
| `LocalCache.Store.WriteBytes` | core/cache.c:717-719 | exactly the bytes of the value's place change |
| `LocalCache.Store.InsertItem` | core/cache.c:679-770 | an insertion refines the map's; with a bitmap the new value goes to the first fit and every other stays where it is |
| `LocalCache.Store.RestampItem` | core/cache.c:773-784 | the part of an update before the blocks are looked for renews recency and expiry unless the expiry is fixed |
| `LocalCache.Store.RewriteItem` | core/cache.c:786-832 | an update in place or by moving refines the map's rewrite; it fails only for want of blocks, having made the cache give something up |
| `LocalCache.Store.UpdateItem` | core/cache.c:772-833 | an update refines the map's: recency and expiry are renewed even when the new value finds no room, which is so exactly when the layout of all values leaves no run in reach of the scan |
| `LocalCache.Store.AddNew` | core/cache.c:672-770 | the insertion of an absent key first makes a full cache give something up, once; whether the value then finds blocks is determined by the blocks of the keys left |
| `LocalCache.Store.Set` | core/cache.c:649-847 | a set refines the map's set for every key, value, expiry, flags and clock; the allocator's answer is the one determined by the blocks of the keys left when it is asked, the value goes to the first fit, nothing else moves and no key changes its slot |
| `LocalCache.Store.Do` | core/cache.c:364-847 | each operation is the specification's step, reply and new map, with the allocator's answer and the new layout determined by the old ones: without a bitmap there is always room |
| `LocalCache.Store.RunAll` | core/cache.c:364-847 | any sequence of operations is, reply by reply, the one run of the finite-map specification in which the allocator answers as the layout determines; expiring entries stay covered if no operation sets an absolute expiry |
| `LocalCache.Store.SweepSlot` | core/cache.c:1016-1032 | one lock section removes its slot's key exactly if expired and keeps the slots it has passed covered by the next scan time |
| `LocalCache.Store.SweepStretch` | core/cache.c:1012-1033 | operations of others and then a lock section are one run; the section gets the key that sits in its slot among the keys of the map at that time, none of which moved unless set; only what the operations set or what has not expired is spared there, and coverage of the slots passed so far is carried to the next slot |
| `LocalCache.Store.SweepRound` | core/cache.c:1012-1033 | a full round, with any operations of others between its lock sections, is a run of those operations and sections in that order, each section with the key in its slot at that time; a key that is there after it was set meanwhile, or was there before with the same entry and not expired when the section of its own slot came; and if none of those operations sets an absolute expiry, the next scan is left nonzero and no later than any live expiry |
| `LocalCache.Store.SweeperPass` | core/cache.c:1000-1036 | a wake-up sweeps exactly when expiry is the sweeper's business and a scan is due, with all that a round promises, and changes nothing otherwise |
| `CacheBlocks.FirstFitIsFound` | core/cache.c:70-146 | the search for free blocks has exactly one answer, a function of the bits, the scan position and the length |
| `CacheBlocks.PutLaw` | core/cache.c:687-701 | a value that fits is given just as many blocks as it needs, none of which any key holds, and the scan goes on behind them or, at the end of the area, from the start |
| `CacheBlocks.RunsAreDetermined` | core/cache.c:649-847 | with the allocator's answers given by the layout, equal operations at equal times make equal runs: nothing about a cache is left open |
| `CacheBlocks.DirectRoom` | core/cache.c:686-692 | without a bitmap every event of a run has room |
| `CacheLayout.BitsAreMarked` | core/cache.c:148-218 | in a consistent cache the bitmap is exactly the padding and the blocks of the layout that the headers of the live keys describe |
| `CacheLayout.LayoutShrinks` | core/cache.c:553-607 | keys that went away took their blocks with them and nothing else moved |
| `CacheLayout.Fitted` | core/cache.c:687-701 | a value put where the allocator answered lies at the first fit of the layout before, every other value lies where it lay, and the scan goes on behind it or at the start |
| `CacheRuns.StepValues` | core/cache.c:364-847 | no operation changes the bytes under another key, and those under its own only by a set that reports success |
| `CacheRuns.StepKeepsEntry` | core/cache.c:364-847 | a step that does not set a key leaves its whole entry, expiry included, as it was or drops it |
| `CacheRuns.BytesAreLastSet` | core/cache.c:649-847 | in every run from empty, whatever is bound to a key are the bytes of its last successful set |
| `CacheRuns.GetReturnsLastSet` | core/cache.c:457-478 | in every run, a get answers if and only if its key was set and not dropped since, is gettable and has not lazily expired, and then with the bytes of its last successful set |
| `CacheLaws.GetLaw` | core/cache.c:457-478 | a get answers with the whole entry exactly for a key that is there, gettable and not lazily expired; it changes no entry, and with LRU purging moves the key it answered for, and nothing else, to the recent end |
| `CacheLaws.DelLaw` | core/cache.c:545-607 | a delete reports success exactly for a key that is there and not lazily expired; in any case the key, and nothing else, is gone |
| `CacheLaws.RefusedLaw` | core/cache.c:657-672 | a set with an empty or overlong key or value, or without the update flag on a key that can be seen, fails and changes nothing |
| `CacheLaws.UpdateLaw` | core/cache.c:772-832 | an update of a key that can be seen, if blocks are found, succeeds and stores the value; expiry and recency are renewed unless the expiry is to stay: a nonzero relative expiry counts from now except under LRU purging, and brings the next scan forward; who may read the entry stays |
| `CacheLaws.UpdateFailsLaw` | core/cache.c:772-806 | without blocks it fails, having renewed expiry and recency all the same and then made the cache give something up, with the old bytes |
| `CacheLaws.InsertLaw` | core/cache.c:672-770 | a set of a key that cannot be seen succeeds exactly if a slot is free, or becomes free when a full cache gives something up, and blocks are found; the new entry has the value, the expiry counted as for an update, and is the most recent one |
| `CacheLaws.FullLaw` | core/cache.c:27-68 | a full cache gives up exactly the least recently used key, then, when a sweep is due, every key whose time has come, and everything if clearing is on and no key was swept; the others keep their order, and a sweep puts the next one off |
| `CacheLaws.SectionLaw` | core/cache.c:1016-1032 | a lock section of the sweeper removes its key exactly if its time has come, and a key still to expire bounds the next scan time from above |
| `CacheLaws.EntryIsHistory` | core/cache.c:649-847 | in every run the whole entry of a key that is there is the one its sets have made: bytes of the last successful one, expiry of the last one that renewed it, even without success, and readable as the set that brought it in said |
| `CacheRuns.PlainSetOnPresentKey` | core/cache.c:657-672 | a set without the update flag on a present key fails and changes no part of the cache |
| `CacheRuns.StepDrops` | core/cache.c:27-68 | a present key leaves the map exactly by its deletion, its expiry seen by a lazy lookup or by the sweeper, or a set that found the cache full or fragmented and gave up this very key: the least recently used one (two of them if no blocks were found either), the expired ones when a sweep was due, or everything when clearing is on and nothing expired was found to remove |
| `CacheRuns.KeptIsPresent` | core/cache.c:364-847 | in every run, sweeper sections included, the keys present are exactly those set and dropped for none of these reasons since |
| `CacheRuns.StepWellFormed` | core/cache.c:649-847 | every operation keeps the map within capacity and limits and the recency order a listing of its keys |
| `CacheRuns.RunWellFormed` | core/cache.c:649-847 | so does every run from empty |
| `CacheRecency.StepOrder` | core/cache.c:425-469 | after any operation the recency order is the old one without some keys and with the used key, if any, at the end |
| `CacheRecency.RecencyIsUseOrder` | core/cache.c:425-469 | in every run with LRU purging the list holds each live key exactly once, ordered by its last use: insertion, update that may restamp, or get |
| `CacheRecency.FullLruEvictsOldest` | core/cache.c:27-41 | a full LRU cache without other policies takes any acceptable new key and evicts exactly the least recently used one |
| `CacheSweep.NeverSkippedWhileExpired` | core/cache.c:1000-1010 | while every expiry is covered, the sweeper never skips its round with an expired entry present |
| `CacheSweep.StepCovers` | core/cache.c:705-711 | with relative expiries and no sweep on full, every operation covers what it stamps and uncovers nothing |
| `CacheSweep.RunCovers` | core/cache.c:705-711 | so does every run between sweeps |
| `CacheSweep.AbsoluteExpiryCoverage` | core/cache.c:705-711 | the restriction is needed: a set with an absolute expiry, whether it inserts or restamps, leaves its entry covered if and only if an earlier scan was already due |
| `CacheSweep.SectionCovers` | core/cache.c:1016-1032 | a lock section covers its own key and, unless it is the first of its round, loses no other |
| `CacheSweep.SectionRemovesOnlyExpired` | core/cache.c:1016-1032 | a lock section removes a key if and only if it is the slot's own and expired, and changes no other entry |
| `CacheRecovery.Fix` | core/cache.c:609-647 | from the item headers alone, with table and list ends cleared, recovery rebuilds a fully consistent state with the same map, the complete free stack, the item count, the least expiry as next scan and, with LRU, the same order |
| `CacheRecovery.NextKey` | core/cache.c:2000-2020 | one iterator call delivers the next live slot in bucket order, or nothing exactly when none is left |
| `CacheRecovery.AllKeys` | core/cache.c:2000-2020 | calling the iterator from the start until it answers nothing delivers every live slot exactly once |
| `ByteBuffer.Buffer.Ensure` | core/buffer.c:34-52 | the contents are kept; without a limit the asked bytes then fit, under one the buffer grows at most to it, and the call fails exactly when it is too small and already full-grown |
| `ByteBuffer.Buffer.Append` | core/buffer.c:99-125 | the contents become the old ones followed by the data, or stay as they were when the limit forbids it |
| `ByteBuffer.Buffer.Decapitate` | core/buffer.c:84-89 | exactly the first bytes are dropped; a longer cut than the contents is refused |
| `ChunkedFormat.HexRunExtends` | core/chunked.c:102-127 | the hexadecimal prefix of a line is settled as soon as a byte that is not a digit follows it |
| `ChunkedFormat.LineExtends` | core/chunked.c:102-127 | a complete size line is read the same whatever bytes follow it |
| `ChunkedFormat.ParseAfterLine` | core/chunked.c:257-315 | the next frame of a stream is its size line followed by the frame of the remaining bytes |
| `ChunkedFormat.ParseEncoded` | core/chunked.c:220-318 | the reference parse of an encoded stream yields its first payload and the encoding of the rest, or its end, for any trailing bytes |
| `ChunkedFormat.ParsedChunk` | core/chunked.c:220-318 | whatever is taken for a chunk is hexadecimal digits of its length, a line end, that many bytes and a line end |
| `ChunkedFormat.ParsedLast` | core/chunked.c:85-127 | whatever is taken for the end is hexadecimal digits of zero and two line ends |
| `ChunkedFormat.ParsedMore` | core/chunked.c:102-127 | more bytes are asked for only while the size line is incomplete or what it announces is not all there |
| `ChunkedFormat.BadForever` | core/chunked.c:102-127 | no bytes that follow make a frame of a malformed start |
| `ChunkedFormat.SizeTextDescribes` | core/buffer.c:73-81 | the written size text denotes the payload's length as a chunk if and only if it is between 1 and 2^32-1 |
| `ChunkedReader.ScanLine` | core/chunked.c:102-127 | the buffer scan for a size line agrees with the reference line parser on the buffered bytes |
| `ChunkedReader.Reader.Receive` | core/chunked.c:20-75 | a receive moves the next bytes of the stream into the buffer, at least one unless it would block or the input is over |
| `ChunkedReader.Reader.Readline` | core/chunked.c:102-127 | a size line is consumed exactly when the reference parser finds one, with its value as result |
| `ChunkedReader.Reader.RequireFinalCrlf` | core/chunked.c:85-100 | the last chunk's line end is consumed if there, waited for if cut short and refused otherwise |
| `ChunkedReader.Reader.Read` | core/chunked.c:220-318 | whatever the fragmentation, a delivered chunk is the one the reference parse of the remaining stream finds, an error is its error, and a would-block answer loses no byte; after the end every call answers the end; a call that has to receive first waits if that would block, and does not wait if it brings a whole frame |
| `ChunkedReader.Reader.Drain` | core/chunked.c:220-318 | over any split into reads and any would-block answers, the answers that are not told to wait are exactly the payloads in order and then the end for ever; waits are no more than the would-blocks |
| `ChunkedBody.Body.NextChunk` | core/chunked.c:186-195 | a chunk pulled for a caller is the next payload of the body, or empty at its end for ever; the null answer comes only when the last receive would have blocked |
| `ChunkedBody.Body.ReadAll` | core/chunked.c:140-161 | a request for everything returns exactly what is left of the body; cut short, which only a receive that would block can do, it loses nothing |
| `ChunkedBody.Body.ReadSome` | core/chunked.c:163-218 | a sized request returns the next bytes, as many as asked or as are left, and holds back the rest; it is answered if the held-back bytes suffice, and cut short, which only a receive that would block can do, it loses exactly those bytes |
| `ChunkedBody.Body.ReadSmart` | core/chunked.c:136-218 | result bytes and what is still to come always make up what was to come before; a null answer comes only from a receive that would block, always if the reader has nothing to go on with, and then exactly the held-back bytes of a sized request are lost |
| `ChunkedBody.Body.ReadMany` | core/chunked.c:136-218 | any sequence of requests gets consecutive slices of the decoded body; fewer answers than requests only if a receive would have blocked, so without one every request is answered |
| `ChunkedBody.LostBytes` | core/chunked.c:163-218 | that loss happens: of any one-chunk body that arrives in two parts with a would-block answer in between, a request for a part gets it, the next one is told to wait, and a request for everything then gets nothing |
| `ChunkedWriter.AppendChunked` | core/buffer.c:73-81 | the buffer gains the size text and a line end if they fit or it may still grow by them, and nothing otherwise |
| `ChunkedWriter.WriteBody` | core/buffer.c:73-81 | payloads written with these size lines, each with its line end, and a last chunk make up exactly the coding of the body |
| `ChunkedWriter.WrittenDecodes` | core/buffer.c:73-81 | the reference parser takes the written stream apart into exactly the payloads, the end and the bytes behind it, if and only if no payload is empty and all are shorter than 2^32 bytes |
| `ChunkedWriter.WrittenIsWellFormed` | core/buffer.c:73-81 | the written stream is a well-formed coding of the payloads under exactly the same condition |
| `ChunkedWriter.RoundTrip` | core/chunked.c:220-318 | a written body, received in any fragments, comes out of the decoder payload by payload and then as ended for ever, with no waits if no receive would block |
| `LogQueue.Queue.HasRoom` | core/logging.c:1667-1675 | there is room exactly when one more record and its bytes stay within both caps |
| `LogQueue.Queue.Push` | core/logging.c:1677-1695 | a message is appended whole, counted and remembered as submitted |
| `LogQueue.Queue.DropHead` | core/logging.c:1709-1729 | the counters follow the list exactly; their saturating branches cannot be reached |
| `LogQueue.Queue.ConsumeWritten` | core/logging.c:1778-1797 | exactly the first written pending bytes leave the queue, whole items first and then part of the head; events and counters stay in balance, and the queue only shrinks on the way |
| `LogQueue.GatherBatch` | core/logging.c:1804-1823 | a batch is a run of untouched items of one logger, and its texts one after the other are the first pending bytes, tagged with that logger; it stops short of 16 items only at another logger, a touched item or where the next would pass 64 KiB |
| `LogQueue.Queue.WriteSome` | core/logging.c:1799-1852 | one write hands the sinks the unwritten rest of the head, or a batch from it on where batches are taken; exactly what they accept of it, as much as they will, is logged and leaves the queue, so that log and pending bytes still make up all that was submitted |
| `LogQueue.Queue.FlushBlocking` | core/logging.c:1799-1852 | against any sinks that are not silent for ever, flushing ends with the queue empty and everything submitted in the sinks' log, in order |
| `LogQueue.Queue.Submit` | core/logging.c:1854-1881 | a submit adds its message to the submitted stream and returns within both caps. A message within the byte cap joins the queue as it is if there is room and an emptied queue if not; a larger one is already in the sinks' log. On the way the byte cap holds if and only if the message is within it, and the record cap unless a larger one meets a full queue |
| `LogQueue.OversizedTrail` | core/logging.c:1858-1868 | of the states a queue passes while an oversized message goes through, some exceed the byte cap, and some exceed the record cap if and only if the queue was full |
| `LogQueue.SubmitAll` | core/logging.c:1854-1881 | over any sequence of submits the bytes the sinks logged, tagged with their loggers, are a prefix of the submitted ones, and after a flush all of them |
| `Residency.AddTo` | core/body_scheduler.c:133-148 | the histogram counts one more residency in the bucket whose limits enclose it |
| `Residency.TotalCount` | core/body_scheduler.c:97-103 | the counts add up to the number of recorded residencies |
| `Residency.Refresh` | core/body_scheduler.c:93-131 | each sample is the least bucket limit with at least its fraction of all residencies at or below it, and the median sample does not exceed the 95% one; both are 0 when nothing is recorded |
| `Residency.SampleIsTight` | core/body_scheduler.c:93-131 | the fraction of the residencies is at or below a sample and, unless it is the first limit, not at or below half of it; a sample in the open bucket means the fraction is not reached at 16 seconds |
| `BodyScheduler.PromoteToBulk` | core/body_scheduler.c:77-91 | the depth counters move with the request and need no saturation; the deficit is cut to one bulk quantum |
| `BodyScheduler.UpdatePromotions` | core/body_scheduler.c:150-179 | a request changes lane if and only if a rule not applied before holds, never back, and each rule that holds is marked |
| `BodyScheduler.Grant` | core/body_scheduler.c:230-263 | the grant is at least one byte, from one quantum after a wait and otherwise from the topped-up, capped deficit; the zero-grant branch is dead |
| `BodyScheduler.Pay` | core/body_scheduler.c:281-310 | bytes are charged to the lane the request was in and paid from the deficit, never below zero |
| `BodyScheduler.Scheduler.NoteRequest` | core/body_scheduler.c:181-204 | only a request with a body is registered, once, in the interactive lane |
| `BodyScheduler.Scheduler.ReadBudget` | core/body_scheduler.c:206-264 | every nonzero wish is granted between one byte and all of it, and exactly the amount the request's lane, deficit and last wait determine; disabled or unregistered, all of it |
| `BodyScheduler.Scheduler.NoteBytes` | core/body_scheduler.c:266-341 | an observation advances progress, pays the deficit, applies the promotion rules to the new progress and marks a body of known length complete when all of it was seen; lane totals add up |
| `BodyScheduler.Scheduler.NoteWait` | core/body_scheduler.c:343-363 | a wait ends the series of full-budget turns and makes the next budget one quantum without a top-up |
| `BodyScheduler.Scheduler.Finish` | core/body_scheduler.c:371-400 | the residency joins the samples, the core is idle, and its depth counters need no saturation |
| `BodyScheduler.Scheduler.Turn` | core/reader.c:191-230 | a budget call with the read it allows is the step of the request record, charged to the lane the call found; the deficit it leaves, with the bytes taken, is within the old one and one quantum |
| `BodyScheduler.TurnBound` | core/body_scheduler.c:206-310 | the same as a law of the request record, with the bounds at and after promotion |
| `BodyLaws.PromotedLaw` | core/body_scheduler.c:150-179 | a request is in the bulk lane after its rules are looked at exactly if it was before, or has read 256 KiB, or 64 KiB in at least four rounds with full budgets in the last two, or 64 KiB in a quarter of a second with a full budget in the last; it then keeps at most 32 KiB to spend |
| `BodyLaws.GrantLaw` | core/body_scheduler.c:226-263 | an interactive request is granted its wish up to its deficit and 64 KiB, at most 256 KiB, or up to 64 KiB after a wait; in the bulk lane the numbers are 32 KiB, 128 KiB and 32 KiB |
| `BodyLaws.ReadLaw` | core/body_scheduler.c:206-341 | a read that got bytes counts them, a round, and a full budget if seven eighths of the grant were used, pays them from the topped-up deficit, ends a wait, and moves the request to the bulk lane exactly if it is heavy now |
| `BodyLaws.WaitLaw` | core/body_scheduler.c:343-363 | a read that waited takes nothing, keeps the lane and ends the series of full budgets; one that failed only had its deficit topped up |
| `BodyLaws.LaneOverRun` | core/body_scheduler.c:150-179 | over any run of reads of a request it ends in the bulk lane if and only if it was heavy at some point: surely once it has read 256 KiB, and never before 64 KiB |
| `BodyScheduler.Scheduler.Serve` | core/body_scheduler.c:206-310 | over any run of reads the bytes taken are at most the starting deficit and the quanta of the lanes the calls ran in; in the bulk lane, however late the promotion, at most one 32 KiB quantum more than its calls |
| `BodyScheduler.Scheduler.ServeFreely` | core/body_scheduler.c:206-310 | a disabled scheduler lets every read take all it wants, and still counts the bytes and keeps the request's start |
| `BodyScheduler.Scheduler.ServeRequest` | core/utils.c:972-974 | from arrival to end, a request with a body adds exactly its time from registration to finish to the residencies, and one without adds nothing, whether the scheduler is enabled or not |
| `BodyScheduler.Scheduler.ServeRequests` | core/body_scheduler.c:371-400 | over any sequence of requests on a core the samples are those of the residencies of all requests with a body |
| `OffloadTransfer.Session.constructor` | core/offload.c:480-484 | set-up registers the connecting socket for output; a failure to do so goes unnoticed |
| `OffloadTransfer.Session.SendRequest` | core/offload.c:496-521 | what was sent is a prefix of the request until all of it is, when both sockets are watched for input; stage and traffic are those of the machine on traffic |
| `OffloadTransfer.Session.ReadChunk` | core/offload.c:523-555 | the chunk read is exactly the gap now waiting in the buffer for the other side, which alone is watched; reading nothing changes nothing |
| `OffloadTransfer.Session.PassOn` | core/offload.c:556-591 | written bytes are exactly the front of the gap; when it is closed both sockets are watched for input again |
| `OffloadTransfer.CloseReasons` | core/offload.c:476-596 | in terms of the event and the streams alone, a session is closed if and only if the event is for a descriptor that is not its business, a read fails or is empty, a write fails or takes nothing, or the direction turns and the event queue fails; a partial write or a call to be tried again never closes it |
| `OffloadTransfer.NextAfterRead` | core/offload.c:523-555 | a read that goes on takes up to 4096 bytes of what came and turns to the other side |
| `OffloadTransfer.NextAfterWrite` | core/offload.c:556-591 | a write that goes on sends what the socket accepts of the next bytes owed, and reading resumes exactly when all are sent |
| `OffloadTransfer.NextAfterRequest` | core/offload.c:496-521 | a write of the request that goes on sends what the socket accepts of its next bytes, and reading starts exactly when all are sent |
| `OffloadTransfer.Session.Handle` | core/offload.c:476-596 | buffer, position and interests together do what a machine on the two byte streams alone does, closing in the same cases, with interests a function of the status and the gap exact; always, each side got a prefix of what the other sent (after the request); a close for want of input finds everything delivered, and so does every close by an event none of whose calls fails; an event without trouble makes progress |
| `OffloadTransfer.Run` | core/offload.c:476-596 | over any run of events a session is the machine on traffic up to the event that closes it, whose traffic is counted too; both streams only grow and stay faithful; if no call for the closing event failed, a stream had ended and everything was delivered |
| `OffloadOneWay.Memory.Handle` | core/offload.c:327-345 | an event sends exactly the next bytes of the block that the socket takes, and the session goes on exactly when it must retry or took some but not all |
| `OffloadOneWay.RunMemory` | core/offload.c:327-345 | over any run of events exactly what the socket took of the block was sent; a closed session has sent the whole block if and only if its last event came without trouble on a socket that takes at least a byte |
| `OffloadOneWay.Pipe.Handle` | core/offload.c:409-462 | buffer, position and interests together do what the two byte streams alone do: a chunk read joins what was received, a write sends exactly the front of the backlog, the direction turns when a chunk came or nothing is left; what was sent is always a prefix of what the pipe gave, and the end of the pipe finds all of it sent |
| `OffloadOneWay.PipeCloseReasons` | core/offload.c:420-459 | in terms of the event and the streams alone, a pipe session is closed if and only if a read fails or is empty, a write fails or takes nothing, or the direction turns and the event queue fails |
| `OffloadOneWay.FlowLaw` | core/offload.c:420-459 | up to 4096 bytes come in at a time, and what the client accepts of the next bytes goes out; the direction turns exactly when a chunk came or all is sent |
| `OffloadOneWay.RunPipe` | core/offload.c:409-462 | over any run of events, the closing one included, both streams are those the events determine, and the session closes at exactly the first event that cannot go on; one that closes because nothing could be read, or by an event none of whose calls fails, has passed everything on |
| `RunQueue.Queue.Push` | core/async.c:79-104 | a request is appended unless queued already; the list stays doubly linked without duplicates |
| `RunQueue.Queue.Remove` | core/async.c:56-77 | exactly one node leaves, its neighbours linked to each other and both ends right |
| `AsyncWaits.AddFd` | core/async.c:166-271 | the descriptor joins the end of the request's list; a positive timeout starts a timer that runs out that long after now, unless one runs, which is kept; the table stays exact if and only if no other request was waiting for the descriptor |
| `AsyncWaits.Reset` | core/async.c:119-136 | the request's list is empty, its timer gone and its descriptors forgotten by the table; nothing else changes |
| `AsyncWaits.ForgetFacts` | core/async.c:119-136 | on an exact table no other request loses a wait, an entry or a timer by it |
| `AsyncWaits.JoinedFacts` | core/async.c:166-203 | the exactness of the table survives a registration if and only if no other request claims the descriptor |
| `AsyncWaits.LostWait` | core/async.c:119-203 | the restriction to unclaimed descriptors is needed: of two requests on one descriptor the second cannot be found once the first stops waiting |
| `AsyncLoop.Loop.Dispatch` | core/async.c:565-579 | a ready descriptor queues the request waiting for it, freed of all waits and its timer; an unknown one is closed |
| `AsyncLoop.Loop.DispatchAll` | core/async.c:478-581 | a batch of ready descriptors and connections is worked off one after the other; closed are exactly the descriptors nobody waits for when their turn comes |
| `AsyncLoop.Loop.Handle` | core/async.c:478-581 | a report wakes the request waiting for its descriptor, or puts a new connection on an unused core, or changes nothing |
| `AsyncLoop.BatchWakes` | core/async.c:478-581 | on an exact table a batch queues each request waiting for one of its descriptors once, in order of their first, and each connection taken; exactly these stop waiting, and the table stays exact |
| `AsyncLoop.UnknownAre` | core/async.c:569-572 | a batch closes the descriptors nobody waited for and exactly those whose request an earlier report of the batch has queued |
| `AsyncLoop.Loop.ExpireOne` | core/async.c:138-164 | the earliest timer, if run out, queues its request |
| `AsyncLoop.Loop.ExpireTimeouts` | core/async.c:138-164 | expiry ends with exactly the future timers left, and the expired requests queued in order of their deadlines and marked |
| `AsyncLoop.Loop.Expire` | core/async.c:449-476 | the requests a round finds timed out, in order of their deadlines, are exactly those due after the wait if no event came, and else those due before it if the queue was empty |
| `AsyncLoop.MinTimer` | core/async.c:145-145 | the tree's minimum is no later than any timer |
| `AsyncLoop.DoActs` | core/async.c:205-311 | the waits after a turn are those of its acts in order, and only the running request's; the table stays exact exactly as long as no act claims another's descriptor |
| `AsyncLaws.TurnLaw` | core/async.c:166-311 | after a turn a request waits for what it had and asked for since it last dropped its waits, in order; its timer is the one it had or, if it had or kept none, runs out as long after the turn as the first positive time asked for since |
| `AsyncLaws.DropLaw` | core/async.c:119-136 | a reset empties the request's list, ends its timer and takes exactly the descriptors of its list out of the table |
| `AsyncLoop.Loop.TakeTurn` | core/async.c:331-353 | an ended request waits for nothing and its core is unused again |
| `AsyncLoop.Loop.RunPass` | core/async.c:584-603 | each queued request has exactly one turn, in order; those left queued are exactly the ones that neither ended nor wait, those that ended are unused again in that order, and all waits are as the turns left them; the table stays exact if and only if no turn claims a descriptor that is another's by then |
| `AsyncLoop.Loop.Admit` | core/async.c:496-551 | a new connection takes the top unused core and is queued, or takes none when there is none or the connection fails |
| `AsyncLoop.Loop.Round` | core/async.c:449-605 | the requests that have their turn in a round are exactly those queued before, then those found timed out, then those woken by its reports, none twice; waits, queue, unused cores and exactness of the table after it follow from theirs |
| `AsyncLaws.RoundPasses` | core/async.c:449-605 | in a round that reports none of its descriptors, a waiting request runs if and only if its timer is found run out, and else keeps its waits and its deadline |
| `AsyncLaws.RunRounds` | core/async.c:449-605 | over any number of such rounds, a waiting request does not run before its deadline, runs as timed out no later than in the first round from then on without events, and without a deadline not at all |

## Left out

- Cache networking and persistence: replication over UDP, synchronisation from other nodes, remote access and store files.
- Cache arithmetic operations, the `random` and `rr` hashes, hit, miss and full counters, modification times, and the wrap-around of an expiry added to the clock; an operation reads the clock once.
- In-place item headers: they are columns of sequences in one state record held by the cache object; the bitmap and the data area are arrays updated in place.
- LocalCache.Store.Set: a free run of blocks that straddles the scan position is not found by the code; the contract states the allocator's exact answer instead of completeness.
- LocalCache.Store.SweepRound: coverage is stated for relative expiries with neither LRU purging, lazy expiry nor sweeping on a full cache; for absolute expiries the exact condition is proved beside it.
- CacheRecovery.Fix: for caches without a bitmap, which is all the code rebuilds.
- ChunkedReader.Reader.Read: says nothing about streams with an empty size line or sizes from 2^63-2 on, and nothing after a parse error, which the code does not remember.
- ChunkedWriter.WriteBody: the repository defines the append of a size line but no loop that writes a body with it; the loop is the coding's.
- ByteBuffer.Buffer.Ensure: for buffers whose length is within their limit; buffer insertion is not modelled.
- LogQueue.Queue.Submit: nonempty messages and a record cap of at least one; on an empty message the flush loop of the code would not advance.
- Log sinks: opening, reset and recovery; shared statistics of the queue.
- Scheduler statistics that nothing reads back (turn, skip, yield and credit counters), and wrap-around of its 64-bit byte and histogram counters; the 32-bit round counters do wrap.
- BodyScheduler.Scheduler.Serve: the server's reader loops are a sequence of reads, each with one budget call and at most one note.
- The sendfile offload engine, whose system call differs by platform, and the list of sessions of a thread; the interests modelled are one session's share of its thread's event queue.
- AsyncLoop.Loop.TakeTurn: a resumed request's reading and clearing of its time-out mark is not modelled; marks are only set.
- AsyncWaits.AddFd: the result of the event-queue registration is not modelled; the code enters the descriptor in list and table before it asks.
- AsyncLoop.Loop.Handle: reports on descriptors of requests that are still being parsed are not modelled; see the line on Admit.
- AsyncLoop.Loop.Round: is about requests past protocol parsing; see the line on Admit.
- AsyncLoop.Loop.Admit: a connection is queued at once, as for protocols that need no parsing; the protocol-parsing phase, whose timer may run out before the request is complete, is not modelled, nor are signals, which take a core without giving it back.
- The emperor, the master process, daemons, gateways, hooks, cron, configuration and plugin loading, log formatting and rotation.
