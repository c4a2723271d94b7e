# blackboxd, modelled and proved

blackboxd collects log entries, buffers them in a bounded ring, ships them in batches to a broker and
falls back to a disk spool when the broker is away; it also dumps several log sources merged by time.
This project models that delivery path and the algorithms beside it in Dafny 4.11 and proves what they
guarantee. `dafny verify dfyconfig.toml` checks everything.

| file | models |
|---|---|
| `collections.dfy` | sums over sequences and maps, the basis of every accounting law |
| `names.dfy` | spool file names, their byte order and their chronological order |
| `spool.dfy` | the spool directory: listing, atomic append, oldest-first eviction |
| `spool_protocol.dfy` | live publish, spool, replay, eviction and crash as one transition system |
| `spool_fifo.dfy` | the order in which replay drains the spool |
| `publisher.dfy` | `SpooledPublisher` over the spool as code, each call a run of that system |
| `entries.dfy`, `ring.dfy` | log entries; the circular ring with its two caps |
| `popwait.dfy` | `PopWait` as a machine and as code over the ring |
| `batching.dfy`, `batcher_turns.dfy`, `batcher.dfy` | the batcher as a machine, what each turn of its loop does, the loop over the ring |
| `delivery.dfy` | ring, batcher and publisher composed |
| `rate.dfy` | the per-source token bucket |
| `merge.dfy`, `dump.dfy` | the heap of cursors and the k-way merge |
| `linereader.dfy`, `offsets.dfy`, `tailer.dfy` | buffered line reading, the offset record, the file tailer |
| `tailer_restart.dfy`, `tailer_process.dfy` | restarts of the tailer as a machine, and the code as runs of it |
| `syslog.dfy`, `rfc5424.dfy`, `rfc3164.dfy` | the syslog parsers and their printers |
| `journal.dfy`, `journald.dfy` | the two journal record splitters and the export parser |

## How it is modelled

- Code that updates objects is a class whose methods are proved against specification functions.
  Concurrency is a transition system whose events are the atomic steps the locks leave; the theorems
  range over every finite run. `Run(c, s, es, t)` says that the events `es` lead from `s` to `t`.
- The accounting laws are stated for an arbitrary weight `w` of payloads. Weight 1 for one payload counts
  its copies; the number of times an entry occurs in a decoded payload follows single entries through the
  whole path.
- Strings stand for Go byte strings, one `char` per byte; journal text is a sequence of Unicode characters.
- The operating system, the broker and the clock are parameters or events: which call fails, what a read
  returns, whether a publish that failed was delivered all the same. The broker acknowledges as a QoS 1
  receiver does (section 4.3.2 of MQTT Version 5.0).

Assumptions, each visible in a precondition or an event guard:

- Clock readings after a restart exceed those before it (`floor` in the spool protocol). Within one process
  the clock may go back, except for the replay-order theorems; there it must also have advanced between
  appends once the counter exceeds ten digits.
- A pass's directory listing is one instantaneous snapshot only where replay order is proved; the
  at-least-once and exactly-once laws hold for any listing whatever.
- Entries are not changed after they are pushed, batch decoding undoes encoding, timestamps are tokens
  decoded by a given function, and arithmetic on times is real.
- The tailed file has a non-zero inode number; for the restart theorems it keeps it and only grows.

## What the code does not do

- **The batcher strands entries.** It drains once per notification and not on its timer. A batcher that waits
  with no notification queued has left entries in the ring if and only if its last drain began with
  |pending| + |ring| > BatchSize (`BatcherStrandsIff`); with 9 of 10 pending, two pushes are enough. They stay
  until the next push or shutdown, however often the timer fires (`RemainderIsStranded`, `StrandingHappens`).
  `ring.go` asks consumers to drain in a loop. Shutdown drains one batch's room only, with the same condition
  (`ShutdownLeavesOverflow`).
- **Structured data with a backslash before `]`.** The scanner treats every backslash as an escape, but
  section 6.3.2 of RFC 5424 allows one in an SD-NAME. `[a\]` is refused; `StructuredDataRoundTrip` gives the
  exact condition.
- **Journal field order.** An empty `SYSLOG_IDENTIFIER` beside a non-empty `_COMM` makes the process name
  depend on line order; `OrderIrrelevantIff` shows that this is the only such case.
- **Journal splitting.** The two splitters agree exactly on text whose records neither begin nor end in
  white space (`SplittersAgreeIffTidy`).
- **Spool names** sort chronologically except for two files of one nanosecond whose counters differ in width,
  the older counter exceeding the leading digits of the newer (`ByteOrderIsChronological`). That takes 10^10
  appends by one process (`TenDigitsSuffice`, `CounterOverflowBreaksOrder`).
- **The tailer skips bytes** at a start if and only if FromBeginning is off, there is no offset record or it
  cannot be loaded, and the file has grown past the furthest offset reached (`StartSkipsIff`); over a whole run
  that is the only way a gap arises (`NoGapIff`). It happens before the first save (`GapBeforeFirstSave`) and,
  when Load fails, after one (`GapAfterSave`). A skipped byte is lost for good once the record has moved past it
  or if there is none (`ConsumableIff`).
- An unterminated last line of exactly MaxLineBytes bytes is flagged as truncated although it is whole
  (`UnterminatedLineCap`), for caps of 16 bytes and more.
- The line cap holds for every cap of at least one byte, although the reader's buffer is never smaller
  than 16 bytes (`LineCap`). The discard limit is rounded up to whole buffers.
- `strict` of the RFC 3164 parser has no effect on its result.

## Model

| member | source | states |
|---|---|---|
| Names.ByteOrderIsChronological | internal/transport/spool.go:64 | for clocks below 2^63 and any counters, byte order of names is order of (clock, counter, final before temporary) if and only if the pair is not misordered: one nanosecond, different widths, older counter above the newer's leading digits |
| Names.TenDigitsSuffice | internal/transport/spool.go:64 | counters below 10^10 are never misordered |
| Names.RenderInjective | internal/transport/spool.go:63-66 | no two appends share a name unless they share clock reading and counter, for all values |
| Names.CounterOverflowBreaksOrder | internal/transport/spool.go:64 | a concrete misordered pair at append 10^10 |
| Names.RenderedKind | internal/transport/spool.go:109 | the filter of List accepts exactly the final names Append makes |
| SpoolStore.Sorted | internal/transport/spool.go:114 | sorting a set of names lists each of them, strictly ascending in byte order |
| SpoolStore.SortedIsUnique | internal/transport/spool.go:162-164 | there is only one ascending listing of a set of names, so List and evict cannot differ |
| SpoolStore.EvictionPointIsUnique | internal/transport/spool.go:165-175 | the point where eviction stops is determined by the directory, the cap and the files that cannot be removed |
| SpoolStore.EvictionMeetsCap | internal/transport/spool.go:135-177 | if every removal succeeds, all files together fit the cap afterwards |
| SpoolStore.EvictionTrimsListing | internal/transport/spool.go:98-116 | eviction takes files off the front of what List returns: both agree on the oldest |
| SpoolStore.NewestSurvivesIffItFits | internal/transport/spool.go:59-95 | the file just appended survives its own eviction pass if and only if it alone fits the cap |
| SpoolStore.EvictOldest | internal/transport/spool.go:137-177 | removes the shortest prefix in name order that meets the cap, skipping files that cannot be removed, and counts what it removed |
| SpoolStore.MeasureFiles | internal/transport/spool.go:147-158 | the total is the size of all regular files, temporaries included |
| SpoolStore.TotalCounts | internal/transport/spool.go:147-158 | each file, temporary or final, adds its length to the total |
| SpoolStore.PlaceBatch | internal/transport/spool.go:68-94 | after a failure only the temporary may differ, torn or removed; after success the batch stands whole under its final name, minus what eviction took |
| SpoolStore.Spool.List | internal/transport/spool.go:98-116 | returns exactly the final files, oldest first |
| SpoolStore.Spool.Evict | internal/transport/spool.go:137-177 | the directory loses exactly the eviction prefix and Drops grows by the number removed |
| SpoolStore.Spool.Append | internal/transport/spool.go:59-95 | names the file by clock and counter and leaves the directory as the atomic write and the eviction prescribe |
| SpoolProtocol.StepKeepsInv | internal/transport/spool.go:228-316 | every step keeps: no torn final file, names never reused, the holder of liveBusy in step with the disk, nothing delivered that was not offered |
| SpoolProtocol.StepBalances | internal/transport/spool.go:228-316 | every step, crash included, keeps the accounting law for every weight of payloads |
| SpoolProtocol.RunBalances | internal/transport/spool.go:179-316 | in every run delivered + spooled + evicted weighs as much as accepted + in flight + surplus |
| SpoolProtocol.RunCounts | internal/transport/spool.go:179-316 | the same law as a count of copies, payload by payload |
| SpoolProtocol.AtLeastOnce | internal/transport/spool.go:183-186 | with crashes and failures anywhere, each acceptance of a payload is backed by a delivery, a complete file or an eviction of its own |
| SpoolProtocol.ExactlyOnce | internal/transport/spool.go:278-316 | if nothing misbehaves, acceptances equal deliveries plus spooled files plus evictions, for any number of replay loops and any stale listings |
| SpoolProtocol.DuplicatesAreBounded | internal/transport/spool.go:278-316 | in any run the copies of a payload exceed its acceptances by at most the number of crashes, failed deletes and deliveries reported as failures, and the one in flight |
| SpoolProtocol.FileLeaves | internal/transport/spool.go:293-314 | a final file never changes, and leaves only by eviction or after the broker acknowledged exactly its bytes |
| SpoolProtocol.EvictionStopsAtCap | internal/transport/spool.go:165-175 | in every run the eviction loop goes on exactly while the directory exceeds the cap and files are left to try |
| SpoolProtocol.DropsCountEvictions | internal/transport/spool.go:132-133 | Drops is the number of files evicted by this process |
| SpoolFifo.ReplayIsFifo | internal/transport/spool.go:278-316 | over a whole run, restarts included, the names replay gets acknowledged never go back in time |
| SpoolFifo.RepeatsAreCrashes | internal/transport/spool.go:305-314 | a name is acknowledged at most once more for each crash |
| SpoolFifo.ReplayIsStrictlyFifo | internal/transport/spool.go:278-316 | without a crash they strictly increase, across passes, loops, appends and evictions |
| SpoolFifo.ReplayTakesOldest | internal/transport/spool.go:282-305 | the file being replayed is the oldest on disk even when the listing is stale |
| SpoolFifo.ListingCovers | internal/transport/spool.go:98-116 | what List returns is chronological and complete |
| SpooledPublishing.SpooledPublisher.Publish | internal/transport/spool.go:228-247 | an acknowledged payload never touches the spool, any other is appended once under the next name; nil exactly if one of the two worked; the recorded events are those that happened; every accepted payload is delivered, evicted or spooled |
| SpooledPublishing.AppendIsRun | internal/transport/spool.go:59-95 | whatever Append does to the directory, failures and evictions included, is a run of the protocol's steps that ends with the same files, counter and drops |
| SpooledPublishing.SpooledPublisher.AppendLive | internal/transport/spool.go:242-246 | the append inside Publish is such a run and leaves the directory as Append does |
| SpooledPublishing.EvictionIsRun | internal/transport/spool.go:137-177 | removing the eviction prefix is a run of single removals, each counted in Drops |
| SpooledPublishing.SpooledPublisher.ReplayFile | internal/transport/spool.go:293-314 | one file: deleted only after acknowledgement, delivered with exactly its bytes, the pass ended by a failed read or publish |
| SpooledPublishing.SpooledPublisher.ReplayOnce | internal/transport/spool.go:278-316 | a pass is a run of the protocol, loses nothing, does to broker and disk exactly what the pass over the listing prescribes, and gets exactly a prefix of the listing acknowledged |
| SpooledPublishing.PassSendsOldestFirst | internal/transport/spool.go:288-315 | a pass sends the oldest files, whole and in order, at most one more than were acknowledged |
| SpooledPublishing.PassDeletesAcknowledged | internal/transport/spool.go:303-313 | only acknowledged files are deleted, and no other file changes |
| SpooledPublishing.HealthyPassDrains | internal/transport/spool.go:278-316 | with a healthy broker and disk one pass delivers the whole spool in order and leaves only temporaries |
| Ring.ComputeApproxBytes | internal/pipeline/ring.go:182-191 | the estimate does not depend on the order in which the map is visited |
| Ring.EstimateOfTexts | internal/pipeline/ring.go:186 | every character of message, hostname, process and source counts one |
| Ring.EstimateOfField | internal/pipeline/ring.go:187-189 | a new field counts its key, its value and eight more |
| Ring.EstimateOfBareEntry | internal/pipeline/ring.go:186 | an entry without texts and fields costs 64 |
| Ring.DropCount | internal/pipeline/ring.go:71-78 | the number of entries a push drops is the least that makes room |
| Ring.PushKeepsLongestSuffix | internal/pipeline/ring.go:71-78 | dropping j entries leaves both caps room for the new one, or nothing but it, if and only if j is at least the number dropped |
| Ring.PushStaysWithinCaps | internal/pipeline/ring.go:56-89 | a push never exceeds the entry cap, nor the byte cap unless one oversized entry stands alone |
| Ring.ByteCapBoundsMessages | internal/pipeline/ring.go:56-89 | with a byte cap, message lengths plus 64 an entry stay within it unless one entry stands alone |
| Ring.PopStaysWithinCaps | internal/pipeline/ring.go:99-104 | a pop keeps both bounds and takes its entry's bytes off the sum |
| Ring.RingBuffer.Push | internal/pipeline/ring.go:59-89 | the circular array does to the contents what the sequence model says, counts the drops, queues a token; a closed ring refuses |
| Ring.RingBuffer.MakeRoom | internal/pipeline/ring.go:71-78 | the drop loop removes exactly the least number of oldest entries, across the wrap-around |
| Ring.RingBuffer.TryPop | internal/pipeline/ring.go:93-105 | yields the oldest entry, or says that the ring is closed and empty |
| Ring.RingBuffer.PopBatch | internal/pipeline/ring.go:131-147 | yields the oldest min(n, size) entries in order and keeps the rest |
| PopWaiting.TryTakesOldest | internal/pipeline/ring.go:93-105 | a try takes the oldest entry, gives up on a closed empty ring, or waits |
| PopWaiting.PopsInOrder | internal/pipeline/ring.go:107-127 | what PopWait returned, then the ring, are the pushed entries without the dropped ones, in order |
| PopWaiting.RunKeepsInv | internal/pipeline/ring.go:107-127 | wakeup and order invariants survive every interleaving of producers and consumer |
| PopWaiting.NoLostWakeup | internal/pipeline/ring.go:84-127 | a waiting consumer has a wakeup queued whenever there is work; PopWait returns nil only if cancelled, or closed and empty |
| PopWaitLoop.TokenTurn | internal/pipeline/ring.go:124 | a token wakes the consumer, which returns the oldest entry, gives up on a closed empty ring, or waits on |
| PopWaitLoop.ClosedTurn | internal/pipeline/ring.go:119-123 | woken by the close it returns the oldest entry, or nil if there is none |
| PopWaitLoop.Consumer.PopWait | internal/pipeline/ring.go:109-127 | the method over the real ring is a run of the machine: its result and state are those of the moments it went through |
| Batching.StepKeepsOrder | internal/pipeline/batcher.go:59-110 | every step keeps the order of entries and the drop count |
| Batching.TickFlushes | internal/pipeline/batcher.go:101-103 | the timer moves all that is pending to the flushed entries and leaves the ring |
| Batching.BatchesInOrder | internal/pipeline/batcher.go:48-113 | flushed batches, then pending, then ring are the pushed entries without the dropped ones, in order; batches have 1 to BatchSize entries; pending stays below BatchSize |
| Batching.DrainEmptiesIffFits | internal/pipeline/batcher.go:77-80 | a drain empties the ring if and only if pending and ring together fit a batch |
| Batching.BatcherStrandsIff | internal/pipeline/batcher.go:89-112 | in every run, a waiting batcher with no token queued holds exactly what its last drain had no room for, which is something if and only if that drain began with more than a batch |
| Batching.LastDrainTakesOneBatch | internal/pipeline/batcher.go:77-99 | the final drain and flush ship exactly one batch's room of the ring and keep the rest |
| Batching.ShutdownLeavesOverflow | internal/pipeline/batcher.go:91-99 | after an orderly close nothing is pending, and the ring keeps entries if and only if the last drain began with more than a batch |
| Batching.RemainderIsStranded | internal/pipeline/batcher.go:101-110 | what the last drain had no room for stays in the ring through any number of timer ticks, and arises if and only if that drain began with more than a batch |
| Batching.StrandingHappens | internal/pipeline/batcher.go:105-110 | a concrete run that strands an entry |
| Batching.KeptOrDropped | internal/pipeline/ring.go:169-170 | what left the ring was taken by the batcher or dropped, and nothing else |
| BatcherLoop.Batcher.Drain | internal/pipeline/batcher.go:77-80 | fills pending from the ring up to BatchSize |
| BatcherLoop.Batcher.Flush | internal/pipeline/batcher.go:59-75 | hands over pending if there is any and empties it |
| BatcherTurns.TimerTurn | internal/pipeline/batcher.go:101-103 | a timer turn hands over pending if there is any, whatever the environment does meanwhile |
| BatcherTurns.NotifyTurn | internal/pipeline/batcher.go:105-110 | a notification takes the token, fills pending from the ring and hands it over if and only if it is full |
| BatcherTurns.ShutdownTurn | internal/pipeline/batcher.go:91-99 | a shutdown turn hands over pending and at most the room left, and returns |
| BatcherTurns.ReturnsIff | internal/pipeline/batcher.go:89-112 | the loop returns if and only if it comes to a shutdown case that is ready |
| BatcherLoop.Batcher.Run | internal/pipeline/batcher.go:48-113 | the loop over the real ring, with the environment acting at the loop head, before each drain and during each flush, does at every turn what the turn prescribes and is a run of the machine, so order, bounds and drop count hold of it |
| BatcherLoop.Batcher.OnTick | internal/pipeline/batcher.go:101-103 | pending is empty afterwards and was handed over if there was any |
| Delivery.RunKeepsInv | internal/pipeline/batcher.go:48-113 | the composed invariant survives every interleaving of producers, batcher, publisher, replay and crashes |
| Delivery.EntriesAreConserved | internal/transport/spool.go:228-316 | in every interleaving, restarts included, each entry's pushes are exactly what is on the device, went down with a process or was shipped, less what was shipped twice |
| Delivery.NoEntryVanishes | internal/pipeline/ring.go:59-89 | a pushed entry is in the ring, pending, dropped, being flushed, in a failed batch, delivered, spooled, evicted or in memory that a crash took |
| Delivery.CrashesLoseAtMost | internal/pipeline/ring.go:56-89 | each crash takes down at most a full ring and one batch |
| Delivery.EntriesShipOnce | internal/pipeline/batcher.go:59-75 | if nothing misbehaves, each push is on the device or was shipped exactly once |
| RateLimiting.RefillDecides | internal/pipeline/rate.go:54-66 | after the refill a token is there exactly if every window allows one more admission |
| RateLimiting.TakeTracks | internal/pipeline/rate.go:49-66 | the bucket's tokens are always the tightest allowance over all windows of the source's history |
| RateLimiting.AdmittedIsCount | internal/pipeline/rate.go:62-66 | admissions of a window are counted one by one |
| RateLimiting.ClockIsMaximum | internal/pipeline/rate.go:54-61 | the bucket's clock is the running maximum of the times passed |
| RateLimiting.RateLimiter.Allow | internal/pipeline/rate.go:42-67 | admits if and only if, this call included, every window from an earlier call to now holds at most burst + rate * length; other sources are untouched |
| RateLimiting.WindowBound | internal/pipeline/rate.go:8-13 | no window admits more than burst + rate times its length |
| RateLimiting.SpacedCallsPass | internal/pipeline/rate.go:42-67 | calls at least 1/rate apart are never refused |
| HeapMerge.SiftDownMends | internal/oneshot/oneshot.go:88-93 | sift-down restores the heap order from one broken place |
| HeapMerge.RootIsLeast | internal/oneshot/oneshot.go:83 | the root is the earliest cursor |
| HeapMerge.HeapifyOrders | internal/oneshot/oneshot.go:73 | heap.Init yields a heap |
| HeapMerge.Advance | internal/oneshot/oneshot.go:88-93 | Fix and Pop leave only live cursors, and compare none that is exhausted |
| HeapMerge.AdvanceKeepsHeap | internal/oneshot/oneshot.go:88-93 | the cursors form a heap at every loop head |
| HeapMerge.AdvanceShrinks | internal/oneshot/oneshot.go:79-94 | each turn writes one of the remaining lines, so the loop ends |
| HeapMerge.LinesNondecreasing | internal/oneshot/oneshot.go:80-95 | the keys of the lines written never decrease |
| HeapMerge.CursorIsWritten | internal/oneshot/oneshot.go:79-94 | each source's entries are all written, in their order |
| HeapMerge.LinesPermute | internal/oneshot/oneshot.go:79-94 | every entry is written as often as it was read |
| DumpMerge.StableSortIsStable | internal/oneshot/oneshot.go:66-68 | the sort orders by time and keeps the order of equal timestamps |
| DumpMerge.StableSortIsUnique | internal/oneshot/oneshot.go:66-68 | there is only one such order |
| DumpMerge.StableSortIsChronological | internal/oneshot/oneshot.go:66-68 | each source is sorted with earlier timestamps first |
| DumpMerge.DumpIsSorted | internal/oneshot/oneshot.go:80-95 | no line of a whole dump has a later timestamp than a line after it, for any sources |
| DumpMerge.DumpKeepsSources | internal/oneshot/oneshot.go:55-96 | restricted to a source, the dump is that source's stable sort; a failed source contributes nothing |
| DumpMerge.DumpIsPermutation | internal/oneshot/oneshot.go:55-96 | the dump holds exactly the entries read |
| DumpMerge.Down | internal/oneshot/oneshot.go:92 | the loop of container/heap computes the sift-down of the model |
| DumpMerge.Up | internal/oneshot/oneshot.go:92 | sift-up restores the heap order and leaves the root alone |
| DumpMerge.InitHeap | internal/oneshot/oneshot.go:73 | the loop of heap.Init computes the heap of the model |
| DumpMerge.NextTurn | internal/oneshot/oneshot.go:88-93 | advancing the root and then Fix or Pop computes the next heap of the model |
| DumpMerge.Collect | internal/oneshot/oneshot.go:59-72 | one sorted cursor per source that was read and is not empty |
| DumpMerge.Merge | internal/oneshot/oneshot.go:58-96 | writes the first min(MaxLines, total) lines of the uncapped merge, or stops at the line that fails |
| LineReading.ReadSlice | internal/source/file.go:221-226 | returns up to the first newline, or a full buffer without one, or what there is at the end of the file |
| LineReading.SkipLine | internal/source/file.go:262-274 | skips to the end of the line unless that is beyond the limit, and always less than limit + buffer |
| LineReading.LineCap | internal/source/file.go:216-296 | a terminated line reaches the parser whole and unflagged if and only if it fits the cap, else its first bytes do, flagged; the next read starts at the next line if and only if the remainder is within the rounded limit |
| LineReading.NormalLinesResync | internal/source/file.go:256-274 | a remainder of at most 16 MiB is always skipped to its end |
| LineReading.ShortLinesPassIntact | internal/source/file.go:198-254 | if no line exceeds the cap the parser gets every byte in order, and nothing is flagged except an unterminated last line that fills the buffer |
| LineReading.UnterminatedLineCap | internal/source/file.go:225-296 | an unterminated line is flagged if and only if it exceeds the cap or has exactly the cap's length and the cap is the buffer size |
| Offsets.StartOffset | internal/source/file.go:170-185 | resumes at the saved offset of the same inode, at 0 after an inode change or a shrink, at the end without a usable record |
| Offsets.OffsetStore.Save | internal/source/offset.go:52-84 | the old record stays unless the new one is complete |
| Tailing.FileSource.OpenInitial | internal/source/file.go:147-196 | reading starts in step with the chosen offset |
| Tailing.FileSource.PersistOffset | internal/source/file.go:343-354 | the record becomes the current offset with its inode, or stays as it was |
| Tailing.FileSource.ReadLine | internal/source/file.go:225-254 | the offset stays exactly the bytes consumed; on a quiescent file the line and the new offset are those of the line model |
| Tailing.FileSource.DiscardThroughNewline | internal/source/file.go:262-274 | counts exactly what it skips, less than limit + buffer |
| Tailing.EntryIs | internal/source/file.go:276-296 | a refused line yields nothing; any other its entry with the source's name, marked truncated exactly if it was cut |
| Tailing.EmissionsInOrder | internal/source/file.go:198-214 | entries are emitted line by line, in order |
| Tailing.FileSource.Drain | internal/source/file.go:198-214 | emits exactly the entries of the consecutive pieces it reads; a quiescent file is read to its end, line by line |
| Tailing.FileSource.CheckRotation | internal/source/file.go:301-341 | starts over at 0 exactly on a new inode or a file shorter than the offset |
| TailerRestarts.StartSkipsIff | internal/source/file.go:168-184 | a start is ahead of every offset reached if and only if FromBeginning is off, no record is usable and the file has grown past that offset |
| TailerRestarts.StepCoversIff | internal/source/file.go:147-354 | a step, crash in the middle of a save included, opens a gap if and only if it is such a start |
| TailerRestarts.NoGapIff | internal/source/offset.go:10-17 | over a whole run there is never a gap if and only if no start skips |
| TailerRestarts.RestartsLeaveNoGap | internal/source/offset.go:10-17 | in every run all bytes from where the last skipping start began up to the furthest offset have been consumed |
| TailerRestarts.SavedAndLoadedNeverSkips | internal/source/file.go:173-179 | once an offset is saved and as long as Load succeeds, no start skips |
| TailerRestarts.FromBeginningLeavesNoGap | internal/source/file.go:169-172 | with FromBeginning every byte up to the furthest offset has been consumed |
| TailerRestarts.ConsumableIff | internal/source/file.go:168-184 | a byte can still be consumed if and only if it has been, or the record or the current run is not past it |
| TailerRestarts.GapBeforeFirstSave | internal/source/file.go:168-184 | before the first save a crash can lose bytes for good: a concrete run |
| TailerRestarts.GapAfterSave | internal/source/file.go:175-177 | a failed Load can skip bytes after a save, which a later start may still read: a concrete run |
| TailerProcess.TailedFile.Start | internal/source/file.go:147-196 | opening the file is a run of the restart machine that starts where the machine does |
| TailerProcess.TailedFile.ReadLine | internal/source/file.go:225-254 | the machine consumes exactly the bytes by which the offset advances |
| TailerProcess.TailedFile.PersistOffset | internal/source/file.go:343-354 | the saved record is the machine's: the current offset with the file's inode |
| TailerProcess.TailedFile.CheckRotation | internal/source/file.go:301-341 | never fires on a file that keeps its inode and only grows |
| TailerProcess.TailedFile.Live | internal/source/file.go:92-142 | any number of processes, one after the other: each turn has its effect on file, record and process and emits exactly the lines read, and all bytes since the last skipping start have been consumed |
| Syslog.ParsePriorityField | internal/parser/syslog_common.go:11-35 | accepts exactly one to three digits in angle brackets with a value of at most 191 |
| Syslog.PriorityRoundTrip | internal/parser/syslog_common.go:11-35 | every priority up to 191 is read back, whatever follows it |
| Syslog.PriorityAccepts | internal/parser/syslog_common.go:11-35 | one to three digits of value at most 191 in angle brackets are accepted, with their value |
| Syslog.PriorityIsGrammatical | internal/parser/syslog_common.go:11-35 | nothing else is accepted, and what is no priority field at all is told apart |
| Syslog.SeverityRoundTrip | internal/parser/syslog_common.go:37-60 | severities and levels correspond one to one by table 2 of RFC 5424, anything else is a warning |
| Syslog.AtoiOfDecimal | internal/parser/syslog_bsd.go:151 | every non-negative int64 is read back from its decimal form |
| Syslog.TrimUndoes | internal/parser/syslog_common.go:62-74 | a missing terminator, LF and CR LF are all undone |
| Rfc5424.TakeToken | internal/parser/syslog_rfc5424.go:123-135 | a space-free token is taken whole, with what follows the space |
| Rfc5424.TokenCases | internal/parser/syslog_rfc5424.go:123-135 | which tokens are refused as empty or missing |
| Rfc5424.ScanFindsEnd | internal/parser/syslog_rfc5424.go:156-173 | skipping escapes and toggling on quotes stops at the first ']' preceded by an even number of backslashes and of unescaped quotes |
| Rfc5424.ScanIsGrammatical | internal/parser/syslog_rfc5424.go:141-180 | every successful scan splits its input into "-" or one or more such blocks, and a rest that starts no further block |
| Rfc5424.GrammaticalIsScanned | internal/parser/syslog_rfc5424.go:141-180 | conversely every input that starts with such blocks is accepted with exactly them |
| Rfc5424.ReadStructuredData | internal/parser/syslog_rfc5424.go:141-180 | the nested loops compute that scan |
| Rfc5424.StructuredDataRoundTrip | internal/parser/syslog_rfc5424.go:137-180 | printed structured data is read back exactly if and only if its last element has a parameter or an id whose backslashes pair off |
| Rfc5424.BackslashIdIsRefused | internal/parser/syslog_rfc5424.go:158-163 | a legal element that is refused |
| Rfc5424.ParseRoundTrip | internal/parser/syslog_rfc5424.go:40-118 | parsing a printed record, with any terminator and with or without a byte order mark, recovers priority, time, host, application, process id, structured data and message; "-" stands for nothing |
| Rfc3164.ContentRoundTrip | internal/parser/syslog_bsd.go:140-162 | tag, pid and message are recovered from TAG[PID]: MSG |
| Rfc3164.LooseContentRoundTrip | internal/parser/syslog_bsd.go:140-162 | the same without the colon, without the space, or with more spaces |
| Rfc3164.MalformedPid | internal/parser/syslog_bsd.go:149-156 | a pid that is no non-negative number counts as 0 |
| Rfc3164.AcceptedIff | internal/parser/syslog_bsd.go:101-121 | exactly which lines are accepted after the priority, and which are truncated |
| Rfc3164.ParseRoundTrip | internal/parser/syslog_bsd.go:90-135 | parsing a printed record, with any terminator, recovers priority, time, host, tag, pid and message |
| JournalSplitting.Consume | internal/source/journal.go:97-125 | the streaming splitter emits exactly the groups of lines between blank lines, in order |
| JournalSplitting.SplitRecords | internal/oneshot/sources.go:99-104 | the record loop yields the trimmed non-empty pieces of the blank-line split |
| JournalSplitting.RecordsReadBack | internal/source/journal.go:97-125 | records printed with a blank line behind each are found again with exactly their lines |
| JournalSplitting.PieceRecords | internal/oneshot/sources.go:100 | each piece of the blank-line split holds at most one record, and together they hold all of them |
| JournalSplitting.SplitAgrees | internal/oneshot/sources.go:99-104 | on tidy text the blank-line split yields the records of the streaming splitter |
| JournalSplitting.SplittersAgreeIffTidy | internal/oneshot/sources.go:99-104 | the two splitters give the parser the same lines if and only if no record begins or ends in white space |
| Journald.ParseRecord | internal/parser/journald.go:33-61 | the line loop computes the parser of the model |
| Journald.DroppedIff | internal/parser/journald.go:44-49 | a line is dropped if and only if it has no '=' or starts with one |
| Journald.AcceptedIff | internal/parser/journald.go:54-60 | a record is refused if and only if it has neither a message nor an unrecognised field |
| Journald.RecordReadsBack | internal/parser/journald.go:33-105 | a record printed from any distinct fields parses to the entry of those fields |
| Journald.EntryRoundTrip | internal/parser/journald.go:76-105 | an entry exported to the journal's fields is recovered, level, time, numbers, texts and own fields |
| Journald.SourcesAgree | internal/source/journal.go:95-125 | on tidy text both journal sources parse to the same entries in the same order |
| Journald.BuildIsFromFields | internal/parser/journald.go:63-105 | with distinct keys the entry is a function of the set of fields, the process name excepted when identifier and command clash |
| Journald.OrderIrrelevantIff | internal/parser/journald.go:63-105 | with distinct keys every permutation of the lines parses alike, if and only if it is not an accepted record with an empty identifier beside a non-empty command |

## Left out

- `internal/transport/mqtt.go`: the broker connection; upstream is an acknowledge, fail, or fail-after-delivery step.
- gzip, JSON and `serialize.go`: library codecs; the batch encoding is a function that decoding undoes.
- `internal/config`, `internal/security`, `cmd/blackboxd` and the parser registry: configuration and plumbing.
- kmsg and dmesg sources, subprocesses, `oneshot.FileSource.Read`, the in-place filter of `DmesgSource.Read` and `Filter.Passes`: only easy members.
- Calendar parsing, time zones, float rounding, the saturation of `time.Time.Sub`, UTF-8 sanitising, logging and panic recovery.
- Integer wrap-around of counters and byte totals: they are unbounded here.
- Power loss: a crash ends the process and keeps the directory; `Append` and `Save` do not sync the directory itself.
- Foreign names in the spool directory: every file there is one that Append made, temporary or final.
- A publisher without a spool, which only forwards; and in `publisher.dfy` a start on a directory that already holds files, which the protocol covers as a restart.
- Live publishers other than the batcher in `delivery.dfy`; the spool protocol by itself allows any number.
- Read errors other than end of file in the tailer; symlink refusal.
- Timer arithmetic (`BatchInterval`, `resetTimer`, poll and save intervals): a timer may fire at any time.
- Rfc5424.ParseRoundTrip: requires the last SD-ELEMENT to close itself; `StructuredDataRoundTrip` shows that the code demands it.
