# Scalpel: the cache engines, the MISS stream and the control loop

This project models the stateful core of Scalpel, an MD@Home client, and proves what its parts owe
each other. `dafny verify dfyconfig.toml` checks all of it.

- **The RocksDB engine.** An image is a pair of records in two column families, the true size is the
  sum of `bytes_len` over the metadata family, and a cached 64-bit counter follows it. `RocksCache`
  holds the engine as a class over a database whose calls are atomic and may fail; `RocksModel` gives
  the effect of each error-free operation as a value; `Codec` (with `Utf8`) and `Store` hold the record
  format and the two-family view, `Catalog` what the evictor reads of the metadata (key, save time,
  length) and the key order of a scan, `Selection` and `Eviction` the slot-filling selection and the
  evictor over it; `Exactness`, `Fifo` and `FifoLimits` say when these two take the oldest entries;
  `History` refines whole runs to one map.
- **The same engine under concurrency.** `Interleaving` cuts saves, drops, recounts and loads into
  their atomic steps. `CounterTheorem` bounds what the counter can miss, `Coherence` says what loads
  return and which keys the two families hold.
- **The filesystem engine** (`FileSystemCache`), over a store whose own evictor is a library.
- **The shrink policy** (`ShrinkPolicy`), on top of the contract both engines keep.
- **The MISS stream** (`MissStream`) and **the account of all requests** (`Requests`), which the
  handlers and the stream keep on one object.
- **Pings** (`Backend`): ping info, token key, verifier and served certificate.
- **Shutdown** (`Shutdown`).

The engine arithmetic is that of the release profile: `u64` additions and subtractions wrap. Clock
readings, replies of the API, upstream events and failures of the database are arbitrary inputs. The
hash is an arbitrary function; where distinct inputs must not collide, the lemma says which two.

Where the code and its comments differ, the model follows the code:

- `find_top_entries` promises the best `n` (src/cache/rocks.rs:302-303) but overwrites the first worse
  slot. A scan goes in key order, so what a store gives depends on how its save times fall on its
  keys, which are digests. `Exactness.ExactIffBenign` gives exactly the lists of save times that are
  answered correctly however they fall. For the evictor's promise to drop the oldest entries
  (src/cache/rocks.rs:267), `Fifo.FifoIffBenign` does so for one round, and
  `FifoLimits.EvictionIsFifoIffBenign` for whole evictions by a condition on the store before the
  call. `Fifo.FifoIffExact` is the condition for one store and its one scan,
  `FifoLimits.SecondOldestIsKept` a store of 257 entries that fails.
- A stream is said to be saved "once the stream is completely done" (src/http/chunked.rs:75-77), but
  `drop` saves whatever arrived. `MissStream.SavesWholeBody` says exactly when that is the whole body.
- The key comment speaks of an MD5 hash (src/cache/mod.rs:78); the code uses SHA-256. The two names are
  hashed without a separator, so distinct images can share a slot (`Codec.SlotIsAmbiguous`).
- `ping_backend` stores a reply before it decodes the token key. A certificate that arrives with a key
  that does not decode is never served (`Backend.LostCertificate`); `Backend.ServedIffApplied` gives
  the exact condition over a run.
- The branch commented "how did we get here?" (src/cache/rocks.rs:278) is taken on an empty store and on
  no other (`Eviction.EmptyExit`).

## Model

| member | source | states |
|---|---|---|
| Codec.SharedSlot | src/cache/mod.rs:80-86 | two image keys share a slot iff their saver flags match and chapter and image concatenate to the same bytes, unless the hash collides on the two |
| Codec.SlotIsAmbiguous | src/cache/mod.rs:80-86 | two different images with the same flag and no empty name share a slot under every hash |
| Codec.KeyLayout | src/cache/mod.rs:80-86 | a byte key is the hash of the flag as one byte 0 or 1, then the chapter, then the image name |
| Codec.DecodeEncode | src/cache/mod.rs:171-188 | decoding undoes encoding for every entry, whatever bytes follow the record |
| Codec.DecodeIsCanonical | src/cache/mod.rs:181-188 | an input decodes to an entry iff it starts with the encoding of that entry |
| Codec.TruncatedIsRejected | src/cache/mod.rs:181-188 | every strict prefix of an encoding is rejected |
| Codec.BlankRestore | src/cache/rocks.rs:226-236 | blanking the bytes before encoding and restoring them after decoding loses nothing, and the metadata record does not grow with the image |
| Codec.RecordLayout | src/cache/mod.rs:110-118 | a record is the save time in 16 bytes, the 32 of the checksum, the mime type, the length in 8 bytes and the bytes, each of the two texts after its length in 8 bytes, integers least significant byte first |
| Utf8.ValidIffScalars | src/cache/mod.rs:114 | the mime types that can be decoded are exactly the encodings of sequences of Unicode scalar values |
| Store.ScanSumIsMetaSum | src/cache/rocks.rs:124-138 | adding up the lengths over a scan gives the sum over the metadata map |
| Catalog.OneScan | src/cache/rocks.rs:317-319 | a store has one scan: its items in key order |
| Catalog.PrecedesAtFirstDifference | src/cache/rocks.rs:317-319 | keys are ordered by the first byte in which they differ, a prefix first |
| Store.RecordsOf | src/cache/rocks.rs:317-328 | a scan yields exactly the decodable items, each once, in key order |
| Selection.GatherIsInSeries | src/cache/rocks.rs:315-347 | the entry-by-entry loop gives the same array as one running-minimum filter per slot, in series |
| Selection.KeptIsOldest | src/cache/rocks.rs:340-346 | a slot ends with the oldest of its first entry and of all that reached it, the earliest to come among ties |
| Selection.SelectionIsSound | src/cache/rocks.rs:307-352 | min(n, entries) distinct entries are returned, a globally oldest among them; what was turned away is no older than all returned, what was displaced is strictly newer than some returned one |
| Selection.TurnedAwayIsNewer | src/cache/rocks.rs:336-346 | an entry that replaced nothing on arrival is no older than any returned entry |
| Selection.DisplacedIsNewer | src/cache/rocks.rs:340-346 | a displaced entry is strictly newer than its displacer and than some returned entry |
| Selection.HoldsOldest | src/cache/rocks.rs:307-352 | for n > 0 a globally oldest entry is returned |
| Exactness.ExactIffBenign | src/cache/rocks.rs:302-347 | the entries of a store give the n oldest from the key-order scan, however they fall on the keys, iff there are at most n of them, or fewer than three save times, or n entries at one of the two oldest save times |
| Exactness.BenignIsExact | src/cache/rocks.rs:302-347 | for such a list no entry left out is older than one returned |
| Exactness.ExactOnlyIfBenign | src/cache/rocks.rs:302-347 | any other list can fall on the same keys so that its key-order scan leaves out an entry strictly older than a returned one |
| Exactness.KeepsPlaces | src/cache/rocks.rs:336-346 | the selection reads save times only: it keeps the entries at the same places of any two lists with the same times |
| Exactness.NotTheBestTwo | src/cache/rocks.rs:340-346 | with two slots, save times 5, 10, 3 give 3 and 10 |
| Eviction.EvictionMeetsTarget | src/cache/rocks.rs:268-300 | an eviction ends at or below the target, in at most as many rounds as there are entries, and a non-empty store always loses an entry |
| Eviction.RoundsShrink | src/cache/rocks.rs:273-296 | the number of metadata entries strictly falls each round |
| Eviction.DropStep | src/cache/rocks.rs:287-289 | each drop lowers the size by the length of its victim; the evictor's `sz` cannot underflow unless the true size overflows 64 bits to begin with |
| Eviction.EmptyExit | src/cache/rocks.rs:278-282 | the exit on an empty queue is taken on an empty store only |
| Eviction.NoOvershoot | src/cache/rocks.rs:287-295 | either one entry was dropped or the size before the last drop was above the target |
| Eviction.LastVictim | src/cache/rocks.rs:287-295 | there is an entry that was dropped and that either was the only one or, put back, makes the size exceed the target |
| Eviction.BatchIsFifo | src/cache/rocks.rs:274-288 | victims of a batch go in order of age and the first is globally oldest at that moment |
| Fifo.BatchSize | src/cache/rocks.rs:276 | a round takes all entries of a store that has at most 256, and 256 of any other |
| Fifo.FifoIffExact | src/cache/rocks.rs:267-296 | a round over a store drops oldest first, wherever it stops, iff the selection from its key-order scan is exact |
| Fifo.FifoIffBenign | src/cache/rocks.rs:267-296 | this holds however the entries fall on the keys iff there are at most 256 of them, or fewer than three save times, or 256 entries at one of the two oldest save times |
| Fifo.EvictionIsFifo | src/cache/rocks.rs:268-300 | if the store, sorted by age, satisfies that condition as a whole and after the removal of each number of full batches, every survivor of any eviction is no older than every victim |
| FifoLimits.EvictionIsFifoIffBenign | src/cache/rocks.rs:268-300 | and only if: otherwise, when all lengths are positive and the true size fits 64 bits, the entries can fall on the keys so that an eviction keeps an older entry than one it drops |
| FifoLimits.SecondOldestIsKept | src/cache/rocks.rs:273-347 | in a store of 257 entries under 32-byte keys every queue drops time 3, then time 10, and leaves out the entry of time 5 |
| Fifo.FewTimesIsFifo | src/cache/rocks.rs:268-300 | with fewer than three save times every survivor is no older than every victim |
| Fifo.SmallStoreIsFifo | src/cache/rocks.rs:268-300 | with at most 256 decodable entries every survivor is no older than every victim |
| RocksModel.ShrinkIsExact | src/cache/rocks.rs:268-300 | unless the true size overflows 64 bits, a shrink leaves the counter equal to the sum over the survivors and at most the target, and takes nothing but the victims from what loads see |
| RocksModel.OnlyRemovedFacts | src/cache/rocks.rs:161-169 | a failed operation loses entries only, never changes one, and leaves no image without its metadata that had it before |
| RocksModel.NextRound | src/cache/rocks.rs:284-296 | a round that used up its queue above the target leaves the evictor at the next round, with its size equal to that of what remains |
| RocksModel.LastRound | src/cache/rocks.rs:291-299 | a round that meets the target ends the eviction with its size equal to that of what remains |
| RocksCache.Database.Iterate | src/cache/rocks.rs:126-129 | a snapshot lists every metadata item exactly once, in key order |
| RocksCache.SortByAge | src/cache/rocks.rs:349-350 | the accumulator is sorted oldest first, as a permutation |
| RocksCache.RocksCache.Open | src/cache/rocks.rs:100-115 | an engine opens with a purged store and an exact counter |
| RocksCache.RocksCache.DropEntry | src/cache/rocks.rs:161-169 | both records go, or on failure at most the image |
| RocksCache.RocksCache.FetchRealSize | src/cache/rocks.rs:123-144 | undecodable items are gone and the counter is the sum of the rest; on failure the counter is untouched and only undecodable items were removed |
| RocksCache.RocksCache.GetDbSize | src/cache/rocks.rs:147-158 | the counter, recounted when the last recount is more than an hour old |
| RocksCache.RocksCache.SaveEntry | src/cache/rocks.rs:222-243 | the image goes to one family, its record without the bytes to the other, and the length is counted; on failure the length stays counted and at most one record was written |
| RocksCache.RocksCache.LoadEntry | src/cache/rocks.rs:247-265 | the entry whose two records are there, an error when the metadata cannot be decoded, else nothing |
| RocksCache.RocksCache.FindTopEntries | src/cache/rocks.rs:307-352 | the sorted selection from the key-order scan, with undecodable items dropped |
| RocksCache.RocksCache.DropQueue | src/cache/rocks.rs:284-295 | drops a prefix of the queue, at least one entry, and stops at the first drop that meets the target |
| RocksCache.RocksCache.EvictEntriesFifo | src/cache/rocks.rs:268-300 | an error-free eviction is one of the model's, and returns the counter, which is the sum over the survivors; a failed one has only removed items |
| RocksCache.RocksCache.Load | src/cache/rocks.rs:357-365 | a load returns what is stored under the byte key, nothing on any error |
| RocksCache.RocksCache.Save | src/cache/rocks.rs:367-375 | a save succeeds iff no call of the database failed; a load then sees the bytes, their length and checksum, the mime type, and the clock as save time, 0 when the clock is before the epoch |
| RocksCache.RocksCache.Report | src/cache/rocks.rs:377-379 | the counter after a possible recount, 0 when that failed |
| RocksCache.RocksCache.Shrink | src/cache/rocks.rs:381-385 | an error-free shrink is an eviction to the given size |
| History.StepRefines | src/cache/rocks.rs:222-300 | every operation acts on what loads see as on one map from byte keys to entries |
| History.LoadSeesLastSave | src/cache/rocks.rs:222-265 | after any run a load sees exactly the last save under the byte key not since dropped or evicted, else nothing |
| History.LoadSeesLastImage | src/cache/rocks.rs:222-265 | the same for image keys, on an engine opened on an empty database: what is loaded is the last save of the same bytes and flag |
| History.NoImageIffRemoved | src/cache/rocks.rs:161-265 | nothing is loaded for an image iff every save under its byte key was followed by a drop or an eviction of it |
| History.RunCovers | src/cache/rocks.rs:122-158 | in sequential runs the counter never under-reports, as long as no save overflows it |
| History.StepCovers | src/cache/rocks.rs:122-144 | a recount and a shrink make the counter exact, and a shrink meets its target |
| History.StepExcess | src/cache/rocks.rs:222-300 | how far the counter is above the true sum: an overwrite and a drop add the length of what they took, a recount and a shrink make it exact, nothing else changes it |
| History.ClockIsAge | src/cache/mod.rs:121-135 | after any run, of two entries saved at different clocks and still there the earlier is the older |
| History.EarlierSaveGoesFirst | src/cache/rocks.rs:268-300 | over any run a shrink that takes the later of two saves takes the earlier, where evictions are first in, first out |
| History.SmallStoreOldestGoFirst | src/cache/rocks.rs:268-300 | with at most 256 entries, what a shrink took was saved no later than what loads still see |
| CounterTheorem.CounterBound | src/cache/rocks.rs:222-243 | in every interleaving the true sum exceeds the counter by at most the lengths of the saves added before the latest recount's store whose metadata was put after its scan |
| Interleaving.RunIsDated | src/cache/rocks.rs:122-144 | the times by which that bound speaks are those of the add, the put, the scan and the store in the run |
| Interleaving.TotalIsAdded | src/cache/rocks.rs:239 | the bytes ever added, which that bound needs to fit 64 bits, are the initial sum and the lengths of all saves begun |
| Interleaving.SaveAlone | src/cache/rocks.rs:222-243 | a save with no other step in between writes and counts what the sequential engine does, whichever put comes first |
| Interleaving.DropAlone | src/cache/rocks.rs:161-169 | so does a drop |
| Interleaving.RecountAlone | src/cache/rocks.rs:122-144 | and a recount |
| CounterTheorem.NeverUnderReports | src/cache/rocks.rs:122-144 | if no save is between its add and its metadata put while a recount is open, the counter never under-reports, at any step |
| CounterTheorem.OverlapUnderReports | src/cache/rocks.rs:122-144 | with overlap it does, and the bound is reached |
| Coherence.LoadsAreConsistent | src/cache/rocks.rs:247-265 | if all saves under a byte key carry one image, every interleaved load returns that image with matching length and checksum |
| Coherence.LoadFindsWhatIsThere | src/cache/rocks.rs:247-265 | in every interleaving a load returns what is stored under its key at its later read, unless what it read first was replaced in between |
| Coherence.MixedSavesDisagree | src/cache/rocks.rs:226-241 | two saves under one key whose images differ in length or checksum can leave a pair of records whose length or checksum is not that of the bytes |
| Coherence.OrphansAreInFlight | src/cache/rocks.rs:161-169 | without overlap of writes and drops of one key and without failed puts, an image without metadata belongs to a save in flight, even when drops fail half way |
| Coherence.SameKeysAtRest | src/cache/rocks.rs:161-169 | at rest, without failed deletes, both families hold the same keys |
| Coherence.SameBytesAtRest | src/cache/rocks.rs:161-169 | and the images hold exactly as many bytes as the metadata says, whatever overwrote what, as long as overlapping saves of one key were of the same length |
| Coherence.SameImageSameBytes | src/cache/rocks.rs:161-169 | in particular when all saves of a key carry one image, however they overlap |
| FileSystemCache.CounterCovers | src/cache/fs.rs:43-68 | over any run the counter never under-reports, and is exact after a shrink and after an hourly recount |
| FileSystemCache.TrueSizeIsBytes | src/cache/fs.rs:43-50 | the true size is the number of bytes of all records |
| FileSystemCache.AddedSize | src/cache/fs.rs:92-97 | a save counts 72 bytes, the mime type and the image |
| FileSystemCache.SaveKeeps | src/cache/fs.rs:82-99 | a save raises the counter by the record's length; it becomes too high by exactly the length it overwrote |
| FileSystemCache.CheckKeeps | src/cache/fs.rs:126-134 | a periodic check keeps the contract of the shrink policy when the store's evictor meets its target |
| FileSystemCache.FileSystemCache.UpdateRealSize | src/cache/fs.rs:43-50 | the counter becomes the sum of the record sizes |
| FileSystemCache.FileSystemCache.FindSize | src/cache/fs.rs:54-68 | the counter, recounted when the last recount is an hour old |
| FileSystemCache.FileSystemCache.SaveToDb | src/cache/fs.rs:82-99 | stored is the record of the bytes, their length and checksum, the mime type and the clock as save time, and its length is counted, or nothing changes |
| FileSystemCache.FileSystemCache.ReadFromDb | src/cache/fs.rs:71-79 | the whole entry that was saved is found again, or the error that stands in the way |
| FileSystemCache.FileSystemCache.Shrink | src/cache/fs.rs:126-134 | a successful shrink makes the counter exact, a failed one leaves it alone |
| ShrinkPolicy.BoundAfterCheck | src/main.rs:122-149 | after every check the true size is at most 0.95 of the maximum, after a shrink at most 0.9, for any engine that keeps the contract |
| ShrinkPolicy.Hysteresis | src/main.rs:122-149 | between two consecutive shrinks saves added more than 0.05 of the maximum |
| ShrinkPolicy.TurnKeeps | src/cache/rocks.rs:356-386 | the RocksDB engine keeps the contract in every sequential error-free turn |
| ShrinkPolicy.EngineStaysBounded | src/main.rs:122-149 | the bound, for whole runs of the RocksDB engine |
| ShrinkPolicy.EngineHysteresis | src/main.rs:122-149 | the hysteresis, for whole runs of the RocksDB engine |
| ShrinkPolicy.CheckIsMeasured | src/main.rs:122-149 | a check at or below 0.95 of the maximum leaves alone what loads see; one above shrinks to 0.9 and takes one entry only, or none that it could have left above 0.9 |
| ShrinkPolicy.EngineIsMeasured | src/main.rs:122-149 | the same, for whole runs of the RocksDB engine |
| ShrinkPolicy.TryShrinkDb | src/main.rs:122-149 | an error-free check is one turn of the policy, shrinks iff over 0.95 of the configured mebibytes, ends at most at 0.9 and takes no more than that needs; no check lets the store grow |
| MissStream.AfterTrace | src/http/chunked.rs:105-140 | after any upstream trace the aggregator holds all bytes forwarded, or is poisoned iff an error was polled; it is never taken |
| MissStream.PoisonIsAbsorbing | src/http/chunked.rs:25-32 | a poisoned aggregator stays poisoned |
| MissStream.SavesWholeBody | src/http/chunked.rs:142-173 | the whole body is saved iff no error was polled and no bytes were left; otherwise a save holds a prefix of it |
| MissStream.ClientGetsWhatIsSaved | src/http/chunked.rs:108-139 | for every trace, the bytes the client received are the bytes aggregated, and it saw a failure iff nothing is saved |
| MissStream.BytesAgg.Put | src/http/chunked.rs:25-32 | bytes are appended iff the aggregator is stable |
| MissStream.BytesAgg.Take | src/http/chunked.rs:46-57 | a stable aggregator is given out once |
| Requests.ChunkedUpstreamPoll.PollNext | src/http/chunked.rs:108-139 | a chunk goes to the client as it is, an error as a failure, the end as the end; the aggregator holds what the client received, and the account follows |
| Requests.ChunkedUpstreamPoll.Drop | src/http/chunked.rs:142-183 | what the client received is saved and counted as a miss with its bytes, a stream in which it saw a failure is counted as failed, and the request is closed in the account |
| MissStream.StreamSettlesOnce | src/http/chunked.rs:142-183 | dropped after any trace a stream adds one miss and exactly the bytes the client got if no error was polled, else one failure and no bytes |
| Requests.MdService | src/http/mod.rs:61-101 | a request is counted iff its archive is data or data-saver and its token verifies or tokens are skipped, else counted as dropped; data-saver is the flag of its key |
| Requests.HandleCacheHit | src/http/handler.rs:41-105 | a hit is counted; its bytes are sent, and counted, unless the client has them |
| Requests.HandleCacheMiss | src/http/handler.rs:235-288 | by the first answered of three attempts, or the third: 200 opens a stream on the same counters, 404 is passed on, anything else is counted as failed |
| Requests.StartPollUpstreamRetry | src/http/handler.rs:204-228 | the first success within the allowed attempts, or the failure of the last; at least one attempt is made |
| Requests.RequestsAreConserved | src/http/handler.rs:41-55 | in every reachable state admitted requests are hits, misses, failures, upstream 404 replies and requests still open; bytes downloaded are those saved, at most those uploaded |
| Requests.CountersCount | src/http/mod.rs:55-96 | over any run every counter is the number of events it stands for, the 404 replies those answered 404, and the bytes uploaded are those of hits sent and of streams saved |
| Requests.OpenStreamIsTrace | src/http/chunked.rs:108-139 | in every reachable state an open stream has aggregated exactly what was polled for it since the upstream answered |
| Requests.StreamSettlesOnce | src/http/chunked.rs:142-183 | each dropped stream becomes one failure if an error was polled, else one miss with the bytes its client received |
| Backend.PingInfoIsLatest | src/backend.rs:205-241 | after any turns the ping info holds the latest certificate, whose creation time is sent next, and the latest key; the verifier is that key decoded iff it decodes |
| Backend.ServedIffApplied | src/main.rs:159-208 | after any run the served certificate is the latest one iff the last reply that brought one brought the one already served, or a key that was not new or decodes |
| Backend.ServedIsLatest | src/main.rs:159-208 | if all new keys decode, after every turn the served certificate is the latest one and the verifier the latest key |
| Backend.LostCertificate | src/main.rs:103-118 | a certificate that comes with a key that does not decode is stored and never served, however often the reply is repeated without it |
| Backend.BootsIff | src/main.rs:162-186 | the client starts iff the first reply brings a certificate, URLs that parse and a key that decodes |
| Backend.TurnEndsIff | src/main.rs:189-201 | later a ping ends it iff a URL does not parse, or a certificate that reached the server fails to respawn it |
| Backend.Application.UpdateFromResponse | src/backend.rs:205-241 | the reply is stored, with the old certificate when it has none; without either, or with a bad URL, it panics before storing |
| Backend.Application.PingBackend | src/main.rs:103-118 | a new key replaces the verifier; one that does not decode fails the ping after the reply was stored |
| Backend.Application.RunTurn | src/main.rs:189-201 | a certificate in the reply is served, a failed ping is passed over |
| Shutdown.PositiveGraceIsBounded | src/main.rs:225-256 | with a positive grace of g seconds pass ceil(g/5) is the last at the latest |
| Shutdown.BusyWaitLastsGrace | src/main.rs:239-256 | a pass that saw requests is the last iff the grace period is over |
| Shutdown.AsI32IsExact | src/main.rs:249 | the cast of the elapsed seconds is exact for less than 68 years and no longer |
| Shutdown.Wait | src/main.rs:232-256 | no pass with a negative grace, at most ceil(g/5) with a positive one, and with zero grace the wait ends iff some interval leaves the counter unchanged |

## Left out

- An eviction that overlaps saves: the subtraction and the final store of the evictor are not protected against it, so `Interleaving` has no step for that store.
- Cancelled futures and panics of blocking tasks: a save runs both of its puts, and a request runs to its end.
- RocksDB, forceps and their options: the families are maps with atomic calls, and a scan is a snapshot in the order of the default comparator.
- RocksCache.Database.Iterate: cannot fail, as the iterator of the original drops read errors; a scan cut short by one is not modelled.
- FileSystemCache.FileSystemCache.Shrink: which records the library's evictor removes, and whether it meets its target, is left open; the policy's bound for this engine is stated under that assumption (`FileSystemCache.CheckKeeps`).
- Debug builds, where 64-bit overflow panics instead of wrapping, and where a clock that goes back panics in the recount test.
- ShrinkPolicy.TryShrinkDb: the thresholds are exact fractions, the original's are 64-bit floats; clock readings of the timers that start a check are not modelled.
- Requests.GlobalState: the handlers and the stream take the identity of their request as a ghost; the upstream's 404 replies and the open requests are ghost fields, and a request runs through its awaits one call at a time.
- Requests.RequestsAreConserved: the counters are unbounded, so their wrap-around after 2^64 events is not modelled.
- FifoLimits.EvictionIsFifoIffBenign: its only-if half needs positive lengths and a true size below 2^64, since a drop that frees nothing may end the eviction early; `Fifo.EvictionIsFifo` needs neither.
- Coherence.MixedSavesDisagree: two saves of one image under different mime types are consistent in length and checksum, and are not covered.
- Selection on whole entries: a record in the queue keeps the key, the save time and the length of an entry, which is all that the evictor reads.
- The checks of a token (decryption, JSON, expiry), key parsing and base64: a token verifies or not, and a key decodes or not.
- Headers, the browser-cache test, TLS setup, the SNI check, routing and the metrics endpoint: plumbing around libraries.
- Configuration, logging, histograms and timers.
- Shutdown.Wait: the time a pass takes is part of its input; that it is at least 5 seconds, and that the process has been stopping for less than 68 years, is a condition of the bound.
