# Models and proofs for the resolver's core

Sift is a filtering DNS resolver.  This project models the parts of it that keep real state or a real
byte format, in Dafny, and proves what they promise:

- **The bbolt codec** (`Bytes`, `OrderedMap`, `Fnv`, `BoltPage`, `BoltLeaf`, `BoltImage`, `BoltWrite`,
  `BoltRead`, `BoltOpen`, `BoltTree`, `BoltRoundTrip`, `BoltShape`, `BoltCapacity`) writes a whole database
  image byte for byte and reads it back.  `BoltImage` says declaratively what a file contains; `BoltWrite`
  and `BoltRead` are the writer and the reader as methods, in place on arrays where the source works in
  place; `BoltRoundTrip` joins them, `BoltShape` and `BoltCapacity` say what is built and how much always
  fits, and `BoltOpen` and `BoltTree` are about any file of the format, such as bbolt itself writes.
  `Sessions` puts the login-session store on top.
- **The response cache** (`CacheState`, `CacheShard`, `CacheRefinement`, `CacheRuns`) is a hash map beside a
  queue of eviction slots that may be dead.  It is shown to be indistinguishable from a plain list ordered
  by last store.  `RefreshClaims` adds the resolver and the refresh worker and follows a refresh claim from
  the lookup that makes it to the job that ends it.
- **Concurrent protocols** (`Pending`, `StreamPool`, `StreamExchange`, `PooledStreams`, `SharedDial`,
  `UpstreamScope`) are step systems: one step per lock, channel or await point, so that a statement about
  every reachable state is a statement about every interleaving.
- **Matching, limits and masks** (`Names`, `RateLimit`, `ProbeGuard`, `Truncation`, `BitMask`, `PrefixMask`)
  and **printed values** (`Decimal`, `ByteSize`, `GoDuration`).

An object that the source updates in place is a class whose methods are proved equal to a function on
values; the properties are then lemmas about that function.  `dafny verify dfyconfig.toml` checks all of it.

Where the code and its surroundings part ways, the code is modelled and the difference is a result here:

- an image whose page size is above 2^20 can be built but not opened (`BoltRoundTrip.RoundTrip` is exact, and
  `BoltCapacity.TooLargeToOpen` exhibits such images);
- the glob matcher misses matches only where pattern and text both hold a star; every text and every pattern
  with a star has such a miss (`Names.ExactOnStarFreeTexts`, `Names.ExactForStarFreePatterns`);
- `suffixes` and `is_subdomain_of` disagree exactly when the domain is empty and the host ends in a dot
  (`Names.SubdomainsAreSuffixes`);
- `in_net` treats an IPv6 `/0` as a whole-address comparison in a release build (`PrefixMask.InNetIsTop`);
- a refresh claim on a still fresh entry, made while no sender is attached, is dropped without being given
  back: the entry stays marked, and is not refreshed, until it is stored again or leaves the cache
  (`RefreshClaims.LockoutLasts`, with the exact conditions in `NoLockoutIff` and `NoLockoutIffAttached`).  A
  stale claim is given back;
- the reply-too-large branch of `stream_exchange` cannot be taken, since a two-byte length is never above it
  (`StreamExchange.ReadsOneFrame`).

## Model

| member | source | states |
|---|---|---|
| Bytes.LERoundTrip | crates/sift-bolt/src/page.rs:50-69 | A number that fits its little-endian field is read back unchanged, for every width. |
| Bytes.BERoundTrip | crates/sift-api/src/auth.rs:171-202 | The same for the big-endian fields of session records and stream frames. |
| Bytes.LowByte | crates/sift-bolt/src/page.rs:50-69 | Little-endian puts the lowest byte first and big-endian puts it last, at every width. |
| Fnv.Fnv1a64 | crates/sift-bolt/src/lib.rs:53-64 | The byte loop computes the recursive hash whose sensitivity is proved below. |
| Fnv.RoundInjective | crates/sift-bolt/src/lib.rs:53-64 | One round of mixing and wrapped multiplication loses nothing: equal results from the same byte mean equal states, and the other way round. |
| Fnv.OneByteChangesHash | crates/sift-bolt/src/lib.rs:53-64 | Changing any one byte of any input always changes its hash. |
| Fnv.KnownVectors | crates/sift-bolt/src/lib.rs:53-76 | The published vectors for the empty input and for one letter come out. |
| BoltPage.PageHeader.Write | crates/sift-bolt/src/page.rs:64-70 | Writing a header changes exactly its 16 bytes of the buffer, to the encoding the reader parses. |
| BoltPage.PageHeaderRoundTrip | crates/sift-bolt/src/page.rs:48-70 | Any buffer that starts with a header's encoding parses to that header. |
| BoltPage.LeafElemRoundTrip | crates/sift-bolt/src/page.rs:181-203 | Any buffer that starts with a leaf element's encoding parses to that element. |
| BoltPage.BucketHeaderRoundTrip | crates/sift-bolt/src/page.rs:245-267 | Any value that starts with a bucket header's encoding parses to that header. |
| BoltPage.BranchElemRoundTrip | crates/sift-bolt/src/page.rs:221-234 | A branch element laid out as bbolt does is read back, its page number included. |
| BoltPage.Layouts | crates/sift-bolt/src/page.rs:48-267 | Every field of the four 16-byte structures lies at its own offset and width. |
| BoltPage.MetaLayout | crates/sift-bolt/src/page.rs:97-166 | Every field of a meta page lies at its own offset, and byte 72 begins the hash of bytes 16 to 71. |
| BoltPage.Meta.Write | crates/sift-bolt/src/page.rs:143-166 | Writing a meta page changes exactly its first 80 bytes: page header, ten fields, and the hash of the first nine. |
| BoltPage.MetaRoundTrip | crates/sift-bolt/src/page.rs:97-166 | A written meta page, whatever follows it, parses to what was written and its checksum verifies. |
| BoltPage.MetaTamperDetected | crates/sift-bolt/src/page.rs:132-140 | A meta page with any one of its 64 bytes changed, the checksum included, no longer verifies. |
| BoltLeaf.EncodeLeafBody | crates/sift-bolt/src/write.rs:221-257 | The growing buffer ends as header, element table and data with self-relative positions; it fails as unsupported exactly when a count, length or offset overflows its field. |
| BoltLeaf.BuildLeafPage | crates/sift-bolt/src/write.rs:265-287 | A leaf on whole pages: the body under its real header, padded with zeros to the smallest number of pages that holds it. |
| BoltLeaf.PagesForIsDivCeil | crates/sift-bolt/src/write.rs:265-287 | The pages counted one by one are the rounded-up quotient, at least one, and they hold the body. |
| BoltLeaf.PayloadAt | crates/sift-bolt/src/write.rs:221-257 | Each key lies at the sum of the lengths before it, directly followed by its value. |
| BoltLeaf.WalkLeaf | crates/sift-bolt/src/read.rs:154-179 | The leaf half of the walk returns every element's key, flags and value in order, or the first failure. |
| BoltLeaf.HeldEntries | crates/sift-bolt/src/read.rs:154-179 | Any page that holds an encoded leaf body is read back as exactly its pairs in order, whatever padding follows. |
| BoltImage.SizingIsExact | crates/sift-bolt/src/write.rs:95-162 | The root built with real bucket headers takes exactly the pages its zero-filled sizing pass predicted, and can be encoded exactly when that pass could. |
| BoltImage.ImageLength | crates/sift-bolt/src/write.rs:164-187 | The image is exactly the allocated total of pages long. |
| BoltImage.ExtentsPartition | crates/sift-bolt/src/write.rs:95-187 | Every page below the total lies in exactly one of the extents of the two metas, the free list, the root and the spilled buckets, and no extent reaches past the total. |
| BoltImage.SpilledAt | crates/sift-bolt/src/write.rs:117-187 | A spilled bucket's page image lies whole at the offset of the page number its header names. |
| BoltImage.FrontAt | crates/sift-bolt/src/write.rs:164-211 | Both metas and the root lie whole at pages 0, 1 and 3. |
| BoltWrite.PlanAll | crates/sift-bolt/src/write.rs:72-93 | Planning succeeds exactly when every bucket is encodable, and then each is inline or on its own pages by the quarter-page rule. |
| BoltWrite.SizeRoot | crates/sift-bolt/src/write.rs:95-110 | The sizing pass has the real root's keys and value lengths and no content. |
| BoltWrite.Renumber | crates/sift-bolt/src/write.rs:129-143 | Stamping a spilled page with its number, the element count read back from the page, gives the page as if built with that number. |
| BoltWrite.Allocate | crates/sift-bolt/src/write.rs:109-155 | From the page count the sizing pass measured, the allocator hands each spilled bucket the pages right after the previous one's and stores the matching header in the root; it ends at the total. |
| BoltWrite.PlaceSpilled | crates/sift-bolt/src/write.rs:179-187 | Copying each spilled page to its own number fills the rest of the buffer end to end, overwriting nothing placed before. |
| BoltWrite.SpillOffsets | crates/sift-bolt/src/write.rs:112-187 | The page number given to each spilled bucket is where its image falls when all are laid end to end. |
| BoltWrite.Build | crates/sift-bolt/src/write.rs:58-212 | The writer as a whole produces the declared image; it is unsupported exactly for a bad page size or an overflowing field, and panics exactly when the buffer is beyond what can be allocated. |
| BoltRead.Open | crates/sift-bolt/src/read.rs:35-74 | Opening goes through both metas and refuses short, foreign and implausible files with the source's own errors. |
| BoltOpen.OpensAtNewest | crates/sift-bolt/src/read.rs:35-74 | A file that opens is read from the root of a valid meta on page 0 or 1 whose transaction is at least that of every valid one, the first on a tie, at the page size its head names. |
| BoltOpen.OpensIff | crates/sift-bolt/src/read.rs:35-74 | A file opens exactly when it has 64 bytes, its head parses as a meta naming a power of two from 512 to 2^20, and one of its first two pages of that size is a valid meta. |
| BoltOpen.PowersOfTwo | crates/sift-bolt/src/read.rs:45-45 | The page-size test accepts the powers of two and nothing else. |
| BoltRead.WalkTree | crates/sift-bolt/src/read.rs:147-152 | The walk follows overflow and branches page by page, and stops at the first failure. |
| BoltTree.TreeWalks | crates/sift-bolt/src/read.rs:147-195 | Any tree stored in a file, of any shape, page numbers and overflow and with any layout inside its leaves, is walked as the entries of all its leaves from left to right, given the depth. |
| BoltRead.ReadOne | crates/sift-bolt/src/read.rs:131-144 | A bucket is read from its own value when inline and from its root page otherwise. |
| BoltTree.BucketReads | crates/sift-bolt/src/read.rs:131-144 | A bucket stored as a tree of any height, or inline, is read as exactly its keys and values. |
| BoltRead.ReadAll | crates/sift-bolt/src/read.rs:112-129 | Every root entry flagged as a bucket is read, bare keys are skipped, and the first failure ends it. |
| BoltTree.DatabaseReads | crates/sift-bolt/src/read.rs:112-129 | Whatever shape its trees have, a database is read as exactly the buckets its flagged root entries store; bare keys are passed over. |
| BoltRoundTrip.WalkLeafPage | crates/sift-bolt/src/read.rs:82-195 | A leaf page found whole at its number, with its overflow pages, is walked as exactly its pairs. |
| BoltRoundTrip.CollectRebuilds | crates/sift-bolt/src/read.rs:131-144 | Collecting the entries of a sorted bucket into a map rebuilds the bucket. |
| BoltRoundTrip.OpensIffReadable | crates/sift-bolt/src/read.rs:35-74 | A built image opens, at the root page the writer chose, exactly when its page size is at most 2^20. |
| BoltRoundTrip.BucketReadsBack | crates/sift-bolt/src/read.rs:131-144 | The value the root stores for a bucket, inline or spilled, leads back to exactly its keys. |
| BoltRoundTrip.RoundTrip | crates/sift-bolt/src/read.rs:35-195 | For every bucket map and page size that build, the image opens exactly when the page size is at most 2^20, and then reading returns exactly that map: inline, spilled and empty buckets, overflowing roots. |
| BoltShape.QuarterPageRule | crates/sift-bolt/src/write.rs:21-93 | In every built file the root lists the buckets in order; one is inline exactly when 32 bytes and 16, key and value for each pair come to at most a quarter page, and otherwise its 16-byte value names the fewest pages that hold it, on which it is stored. |
| BoltShape.MetasDescribe | crates/sift-bolt/src/write.rs:189-209 | Both metas of a built file are valid and true of it: page size, root, free list, and a page count that is the file's length; the second is one transaction newer. |
| BoltShape.FreeListEmpty | crates/sift-bolt/src/write.rs:167-177 | Page 2 of a built file is an empty free list. |
| BoltCapacity.ModestEncodable | crates/sift-bolt/src/write.rs:221-287 | No field overflows, in any bucket or in the root, for under 65536 buckets of under 65536 keys each and 2 GiB in all. |
| BoltCapacity.ModestRoundTrip | crates/sift-bolt/src/read.rs:35-195 | Every map of that size builds at every page size the reader accepts, opens, and is read back exactly, with no further condition. |
| BoltCapacity.TooLargeToOpen | crates/sift-bolt/src/read.rs:45-50 | Every map of that size builds at every power of two above 2^20 and up to 2^29 as well, and none of those images opens. |
| OrderedMap.InsertAscending | crates/sift-bolt/src/write.rs:98-155 | Inserting into an ordered map keeps it ordered, each key once. |
| OrderedMap.InsertAsMap | crates/sift-bolt/src/read.rs:131-144 | A lookup after an insertion sees the new value and nothing else changed. |
| OrderedMap.LessIff | crates/sift-bolt/src/write.rs:58-58 | Keys are ordered byte by byte: up to the first difference, or to the end of the shorter. |
| Sessions.RecordRoundTrip | crates/sift-api/src/auth.rs:171-202 | A record decodes to the same user and the expiry cut to whole seconds, saturated to 32 bits. |
| Sessions.StoredIsCut | crates/sift-api/src/auth.rs:171-187 | What is stored of an expiry is the whole second at or before it, and the nearer end outside 32 bits. |
| Sessions.RecordBytes | crates/sift-api/src/auth.rs:171-187 | A record is four bytes of seconds and two of length, high byte first, and the name. |
| Sessions.DecodesIff | crates/sift-api/src/auth.rs:189-202 | A record is rejected exactly when it is shorter than its own length field says. |
| Sessions.TokenRoundTrip | crates/sift-api/src/auth.rs:205-226 | Printing a token's bytes gives the token back exactly when it is pairs of lower-case hex digits. |
| Sessions.TokenParsesIff | crates/sift-api/src/auth.rs:205-214 | A token parses exactly when it is pairs of hex digits in either case, the first of a pair perhaps a plus sign. |
| Sessions.SaveBucket | crates/sift-api/src/auth.rs:131-137 | The saved bucket holds a record for each session whose token parses and no other, in whatever order the hash map is visited. |
| Sessions.Store.Persist | crates/sift-api/src/auth.rs:126-146 | Persisting replaces the file by an image of the saved bucket, or leaves it as it was when the build fails. |
| Sessions.LoadStore | crates/sift-api/src/auth.rs:149-168 | Loading returns the unexpired sessions of the file, or nothing when it does not open or has no session bucket. |
| Sessions.LoadsIff | crates/sift-api/src/auth.rs:149-152 | A file yields a store exactly when it opens, reads, and has the session bucket. |
| Sessions.LoadsBucket | crates/sift-api/src/auth.rs:149-168 | What is loaded comes from the session bucket, wherever it stands among others. |
| Sessions.UnexpiredAt | crates/sift-api/src/auth.rs:149-168 | Each record is loaded under its own token exactly when it decodes and has not expired; no other record interferes. |
| Sessions.SessionsRoundTrip | crates/sift-api/src/auth.rs:126-226 | Persisting a store and loading the file gives back exactly the sessions whose expiry, cut to whole seconds, is still ahead, with the same user and token. |
| Sessions.ModestStoreSurvives | crates/sift-api/src/auth.rs:126-226 | With under 65536 records and 1 GiB the build cannot fail, so every such store survives a restart. |
| CacheShard.Shard.EvictToFit | crates/sift-dns/src/cache.rs:208-222 | The in-place loop evicts as the specification does, live and dead slots alike. |
| CacheShard.Shard.CompactOrder | crates/sift-dns/src/cache.rs:229-237 | Compaction keeps exactly the live slots, in order, once the queue is long enough. |
| CacheShard.Shard.Put | crates/sift-dns/src/cache.rs:382-426 | A put reports whether it was accepted and leaves the shard in the specified state. |
| CacheShard.Shard.Get | crates/sift-dns/src/cache.rs:302-365 | A lookup answers and updates the shard as specified, counting hits and claiming a refresh. |
| CacheShard.Shard.EndRefresh | crates/sift-dns/src/cache.rs:373-377 | Ending a refresh clears the mark of that entry alone. |
| CacheShard.Shard.Resize | crates/sift-dns/src/cache.rs:273-277 | A new budget takes effect under the same lock: eviction follows at once. |
| CacheRefinement.OneSlotEach | crates/sift-dns/src/cache.rs:382-426 | Each live entry owns exactly one eviction slot, however many dead slots share its key. |
| CacheRefinement.ViewIsMap | crates/sift-dns/src/cache.rs:185-204 | The live slots list the map: the same keys, each once, with the same entries. |
| CacheRefinement.EvictRefines | crates/sift-dns/src/cache.rs:208-222 | Eviction drops oldest stored entries only, keeps the byte count right, and always ends within budget. |
| CacheRefinement.TrimIsShortest | crates/sift-dns/src/cache.rs:208-222 | What eviction drops is the shortest run of oldest entries that frees enough. |
| CacheRefinement.CompactRefines | crates/sift-dns/src/cache.rs:229-237 | Compaction changes nothing that can be seen and leaves at most two slots per live entry and 64 more. |
| CacheRefinement.PutRefines | crates/sift-dns/src/cache.rs:382-426 | A put moves its key to the back of the plain list and trims it, and the held bytes stay the sum of the live weights and within budget. |
| CacheRefinement.PutSurvives | crates/sift-dns/src/cache.rs:382-426 | An accepted put survives its own eviction, as the newest entry. |
| CacheRefinement.GetRefines | crates/sift-dns/src/cache.rs:302-365 | A lookup removes one dead entry or updates one in place; no other entry changes or moves. |
| CacheRefinement.ResizeRefines | crates/sift-dns/src/cache.rs:273-277 | A resize trims the plain list to the new budget. |
| CacheRefinement.SetConfigRefines | crates/sift-dns/src/cache.rs:269-282 | A change of configuration that nothing interrupts trims the plain list to the new budget, leaves nothing at a size of zero, and keeps the held bytes right and within budget. |
| CacheRuns.StepRefines | crates/sift-dns/src/cache.rs:269-426 | Every operation, under whatever configuration it read, keeps the invariant and the budget and gives the answer a plain list would give. |
| CacheRuns.RunRefines | crates/sift-dns/src/cache.rs:206-468 | No run of operations can tell a fresh shard from an empty plain list, with stale copies of the configuration in use and anything between publishing one, resizing and clearing; throughout, bytes held equal live weights and fit the budget. |
| CacheRuns.HitIsLastStored | crates/sift-dns/src/cache.rs:302-365 | After any run a hit is the response last accepted for that key, fresh exactly while younger than its TTL, and stale only if the configuration the lookup read is optimistic and within its maximum age. |
| CacheRuns.HitsExactly | crates/sift-dns/src/cache.rs:302-328 | After any run a lookup hits exactly when the key is held and its last store is younger than its TTL, or the lookup is optimistic and it is within the maximum age; only otherwise is the entry dropped, and no other entry is touched. |
| CacheRuns.RefreshesExactly | crates/sift-dns/src/cache.rs:330-343 | After any run a hit asks for a refresh exactly when no granted one is outstanding and the entry is past its TTL, or optimistic, hit before since its store, and within its last tenth or last second. |
| CacheRuns.BudgetsAddUp | crates/sift-dns/src/cache.rs:242-260 | Sixteen shards together hold no more than the configured size, and waste less than one byte each, from 16 bytes up. |
| CacheRuns.QueueBounded | crates/sift-dns/src/cache.rs:229-237 | The slot queue cannot leak: over any run it stays under a constant set by the largest budget and the least weight stored. |
| CacheRuns.GrantStep | crates/sift-dns/src/cache.rs:330-366 | One operation grants a refresh only by using up a store or a release. |
| CacheRuns.GrantsBounded | crates/sift-dns/src/cache.rs:330-377 | Over any run, refreshes granted for a key never exceed its stores plus its releases. |
| RefreshClaims.ClaimsHaveJobs | crates/sift-dns/src/resolver.rs:764-785 | With the sender attached before the first lookup, an entry marked refreshing always has a job for its key being handed over, queued or in flight; queue and flights keep their limits. |
| RefreshClaims.Drains | crates/sift-dns/src/refresh.rs:59-98 | From any state the jobs under way can all finish by themselves, in no more steps than the work they stand for. |
| RefreshClaims.StuckIsIdle | crates/sift-dns/src/refresh.rs:59-98 | Queue, permits and worker never block each other: no job step is possible exactly when no job is left. |
| RefreshClaims.NoneLockedOut | crates/sift-dns/src/refresh.rs:59-98 | Whatever follows a reachable state, job steps are bounded by the work there was and six for each lookup since, and whenever none is left to take nothing is marked refreshing: every schedule, not one. |
| RefreshClaims.LeakWithoutSender | crates/sift-dns/src/resolver.rs:419-427 | For every configuration that can claim at all, a five-step run without a sender that leaves an entry marked with no job. |
| RefreshClaims.LockoutLasts | crates/sift-dns/src/cache.rs:340-343 | A lockout ends with an accepted store for that key or when the entry leaves the cache; until then no step refreshes it or takes a job for it. |
| RefreshClaims.NoLockoutIff | crates/sift-dns/src/resolver.rs:404-427 | Under one configuration no run locks an entry out exactly when the sender is attached first, or stale responses are never served, or caching is off, or no response fits a shard. |
| RefreshClaims.NoLockoutIffAttached | crates/sift-dns/src/resolver.rs:404-427 | When the configuration may change, no run locks an entry out exactly when the sender is attached before the first lookup, from whatever budget the run starts. |
| Pending.ReachableInv | crates/sift-dns/src/pending.rs:59-137 | In every interleaving the map names exactly the slots not yet removed, and a follower still waiting on a notified slot has its flag set. |
| Pending.OneLeader | crates/sift-dns/src/pending.rs:113-137 | A key has at most one leader at a time. |
| Pending.RemovesOwnSlot | crates/sift-dns/src/pending.rs:59-86 | A leader removes its own slot and leaves every other request in the map. |
| Pending.SendFirstStrands | crates/sift-dns/src/pending.rs:64-65 | A run that strands a follower when the notification goes out before the slot is removed. |
| Pending.NobodyStrandedIffRemoveFirst | crates/sift-dns/src/pending.rs:59-86 | No run strands a follower, exactly because the slot is removed before the notification. |
| Pending.LeaderAlwaysReleases | crates/sift-dns/src/pending.rs:59-104 | A waiting follower is at most three steps of its own leader away from being woken; dropping the leader is enough. |
| Pending.ReadsWhatWasPublished | crates/sift-dns/src/pending.rs:98-104 | A follower reads exactly what its own leader finished with, or nothing if that leader was dropped. |
| Pending.OutcomeFinal | crates/sift-dns/src/pending.rs:59-86 | What a leader published never changes afterwards. |
| StreamPool.Pool.Take | crates/sift-dns/src/conn.rs:240-257 | The in-place sweep and pop do what the checkout function says. |
| StreamPool.Pool.Put | crates/sift-dns/src/conn.rs:260-272 | The in-place return keeps to the cap as the return function says. |
| StreamPool.TakeIsNewest | crates/sift-dns/src/conn.rs:240-257 | A checkout hands out the newest idle connection exactly when that one is usable, never an older one; what stays is a contiguous stretch of the pool. |
| StreamPool.TakeMissesOnlyStale | crates/sift-dns/src/conn.rs:829-843 | When liveness is not consulted, a checkout misses exactly when everything idle is stale, and then leaves the pool empty. |
| StreamPool.PutKeepsNewest | crates/sift-dns/src/conn.rs:260-272 | Returning keeps the most recently returned connections, at most four. |
| StreamPool.PoolSafe | crates/sift-dns/src/conn.rs:829-886 | In every interleaving a connection is idle or held by one query, never both; every idle one has had as many validated replies read as queries written; at most four are idle, in order of return. |
| StreamPool.CheckedOutIsClean | crates/sift-dns/src/conn.rs:829-886 | A connection handed out has not idled past the cap and has no reply left unread. |
| StreamPool.OnlyAnsweredReturns | crates/sift-dns/src/conn.rs:829-886 | Only a query whose own reply was read and validated puts a connection back. |
| PooledStreams.RepliesAreOwn | crates/sift-dns/src/conn.rs:829-886 | In every interleaving over pooled byte streams whose other end answers each query with one frame, right or wrong, a query reads the very message sent for it and accepts it exactly when identifier and question match, field by field. |
| PooledStreams.IdleIsSilent | crates/sift-dns/src/conn.rs:829-886 | Nothing is left to read on any idle connection, whatever failed or was abandoned before. |
| StreamExchange.ReadsOneFrame | crates/sift-dns/src/client.rs:333-370 | Reading takes exactly one whole frame off the stream, or fails exactly when there is none; no length is too large. |
| StreamExchange.AnsweredIff | crates/sift-dns/src/client.rs:333-388 | An exchange answers exactly when the next thing on the stream is one whole frame with a reply of the same identifier and, unless nothing was asked, one question of the same type, class and, letter case aside, name; it leaves the stream just past it. |
| StreamExchange.ValidIff | crates/sift-dns/src/client.rs:246-293 | A reply is accepted exactly when identifier, question count, type, class and folded name match, field by field. |
| StreamExchange.FrameBytes | crates/sift-dns/src/client.rs:341-348 | A frame is the length in two bytes, high byte first, and the message. |
| StreamExchange.LowerSame | crates/sift-dns/src/client.rs:288-293 | Two bytes of a name compare as the same exactly when equal or the two cases of one letter. |
| StreamExchange.LeftoverIsRead | crates/sift-dns/src/client.rs:371-388 | A connection with an unread frame gives that frame to the next query, so its own reply is lost: why such a connection must not be reused. |
| StreamExchange.CleanRun | crates/sift-dns/src/client.rs:333-388 | A clean connection reused for any number of queries gives each its own reply and is clean again. |
| StreamExchange.SameNameIsFolded | crates/sift-dns/src/client.rs:288-293 | Names compare as the same exactly when they are equal label by label in lower case. |
| SharedDial.Shared.Get | crates/sift-dns/src/conn.rs:306-318 | Asking for the shared connection returns it while it is alive, and clears the slot when it is not. |
| SharedDial.Shared.Put | crates/sift-dns/src/conn.rs:321-326 | Installing a connection gives it the next stamp. |
| SharedDial.Shared.Forget | crates/sift-dns/src/conn.rs:333-338 | Forgetting a stamp empties the slot only while it still carries that stamp. |
| SharedDial.Connect | crates/sift-dns/src/conn.rs:893-932 | An uncontended call hands out the live connection without dialling; otherwise it fails within the back-off, or dials once and either installs the result under a new stamp or records the failure. |
| SharedDial.SoloIsConnect | crates/sift-dns/src/conn.rs:893-932 | A caller that nothing interrupts ends, in the step system, exactly where that call ends: same slot, stamps, recorded failure and outcome. |
| SharedDial.LookupShares | crates/sift-dns/src/conn.rs:306-318 | Either lookup hands out the installed connection exactly while it is alive, and clears a dead one. |
| SharedDial.DialsIff | crates/sift-dns/src/conn.rs:911-931 | Past both lookups a caller dials exactly when no recorded failure is still ahead of the clock; a refusal is remembered for one second and a success forgets it. |
| SharedDial.ReachableInv | crates/sift-dns/src/conn.rs:893-932 | In every interleaving whoever is past the gate holds it, and nothing is installed between its second look and its own installation. |
| SharedDial.OneDialAtATime | crates/sift-dns/src/conn.rs:893-932 | At most one dial runs at a time, and nothing is installed while it does. |
| SharedDial.DialOnlyWhenNeeded | crates/sift-dns/src/conn.rs:893-932 | A dial starts only when nothing is installed, no other dial runs, and any recorded failure has outlived its back-off. |
| SharedDial.HolderCanMove | crates/sift-dns/src/conn.rs:907-931 | Whoever holds the gate can always take its next step: nothing else is waited for. |
| SharedDial.GateLetGo | crates/sift-dns/src/conn.rs:907-931 | In every schedule a caller takes at most five steps of its own before it lets go of the gate, whether its dial succeeds or fails. |
| SharedDial.StampsUnique | crates/sift-dns/src/conn.rs:321-326 | No two connections ever installed share a stamp. |
| SharedDial.ForgetSparesReplacement | crates/sift-dns/src/conn.rs:328-338 | Forgetting removes the caller's own connection or nothing; a replacement stays. |
| UpstreamScope.PoolForIff | crates/sift-dns/src/resolver.rs:380-389 | A query is on its own pool exactly when it names no upstreams or its pool is there; it is served by that pool, and by the global one otherwise. |
| UpstreamScope.OwnAnswersStore | crates/sift-dns/src/resolver.rs:902-908 | An answered query on its own pool stores its answer under its key. |
| UpstreamScope.CachedFromOwnPool | crates/sift-dns/src/resolver.rs:830-911 | Everything cached under a set of upstreams came from the pool installed for that set when its query chose a pool, the global one when the key names none, over every run of queries, refreshes and replacements. |
| UpstreamScope.FollowersStayInScope | crates/sift-dns/src/resolver.rs:880-893 | A query that follows another is answered from a pool installed for its own upstreams too. |
| UpstreamScope.StrangersKeepOut | crates/sift-dns/src/resolver.rs:842-854 | A query answered while its own pool is missing follows nobody, is followed by nobody, and changes no cache entry. |
| Names.GlobMatch | crates/sift-core/src/name.rs:70-96 | The backtracking loop terminates on every input, accepts only real matches, and accepts all of them unless pattern and text both hold a star. |
| Names.Sound | crates/sift-core/src/name.rs:70-96 | From any state of the matcher, an acceptance is justified by the pattern's meaning. |
| Names.Complete | crates/sift-core/src/name.rs:70-96 | On a text without a star, retrying the last star alone misses nothing the pattern means. |
| Names.ExactOnStarFreeTexts | crates/sift-core/src/name.rs:75-75 | A text on which the matcher agrees with the meaning of every pattern is exactly one that holds no star. |
| Names.ExactForStarFreePatterns | crates/sift-core/src/name.rs:75-75 | A pattern for which the matcher agrees with its meaning on every text is exactly one that holds no star: every other one misses some text. |
| Names.WildcardMatch | crates/sift-core/src/name.rs:61-67 | A leading `*.` covers the bare domain and all below it; any other pattern accepts only what the glob means, and all of it unless pattern and host both hold a star. |
| Names.ListSuffixes | crates/sift-core/src/name.rs:18-29 | The stepped iterator yields the host and each of its parents, longest first. |
| Names.SuffixesShrink | crates/sift-core/src/name.rs:18-29 | The suffixes begin with the host and get strictly shorter. |
| Names.SubdomainsAreSuffixes | crates/sift-core/src/name.rs:18-41 | A host is under a domain exactly when the domain is one of its suffixes, except exactly for the empty domain and a host that ends in a dot. |
| RateLimit.Limiter.Allow | crates/sift-dns/src/ratelimit.rs:84-120 | Refilling, spending and sweeping in place are one step of the limiter. |
| RateLimit.SpendLevel | crates/sift-dns/src/ratelimit.rs:104-120 | A query is granted exactly when its subnet's level is at least one, takes one token from that subnet, and leaves every other level alone for all time. |
| RateLimit.SweepIsInvisible | crates/sift-dns/src/ratelimit.rs:97-99 | Sweeping idle buckets never changes an answer in any run, compared with a limiter that forgets nothing, as long as no query is handled more than 299 seconds out of turn. |
| RateLimit.TokensConserved | crates/sift-dns/src/ratelimit.rs:104-120 | In whatever order queries are handled, those granted to a subnet plus the level it is left with never exceed a full bucket plus what flowed in while the clock moved forward. |
| RateLimit.GrantsLimited | crates/sift-dns/src/ratelimit.rs:84-120 | In whatever order queries are handled, a subnet is granted at most cap and cap more for each second the clock moved forward, exempt addresses aside. |
| RateLimit.GrantsLimitedInSpan | crates/sift-dns/src/ratelimit.rs:84-120 | Handled in clock order, at most cap + cap * T queries in any span of T seconds. |
| RateLimit.RefusalIsEarned | crates/sift-dns/src/ratelimit.rs:104-120 | Handled in clock order, a query is refused only if its subnet was granted the whole limit in the second before it. |
| RateLimit.ExemptGoFree | crates/sift-dns/src/ratelimit.rs:84-93 | With no limit, or for an address on the list, every query is granted and nothing is counted. |
| ProbeGuard.Guard.Admits | crates/sift-dns/src/probe.rs:129-152 | Admitting drops a penalty that has run out and refuses one that has not: the asking step of the run. |
| ProbeGuard.Guard.Record | crates/sift-dns/src/probe.rs:158-164 | A finished connection is a silent step of the run when it was answered nothing, and an answered one otherwise. |
| ProbeGuard.Guard.RecordWasted | crates/sift-dns/src/probe.rs:180-230 | A silent connection is counted, in place, within its window, and the sweep runs when the table is full. |
| ProbeGuard.MarkWitness | crates/sift-dns/src/probe.rs:180-230 | Every mark is backed by that many silent connections that really happened, none later than one window after the first and with no answered one since, in whatever order they are recorded. |
| ProbeGuard.RefusalIsEarned | crates/sift-dns/src/probe.rs:129-230 | Whenever an address is refused it is exempt on no ground, and there were at least `strikes` silent connections from it, none later than one window after the first, none answered since, the last less than the penalty ago; recorded in clock order, all lie inside that window. |
| ProbeGuard.StrikesAddUp | crates/sift-dns/src/probe.rs:180-230 | From an unmarked address every silent connection up to the end of one window is counted, whatever is swept meanwhile and in whatever order, and the penalty starts exactly at the `strikes`th. |
| ProbeGuard.StrikesAreRefused | crates/sift-dns/src/probe.rs:129-230 | An unmarked address that makes `strikes` silent connections inside one window is refused from the last of them until the penalty runs out, unless one of its connections is answered. |
| ProbeGuard.ExemptGoFree | crates/sift-dns/src/probe.rs:129-189 | With no strikes configured, or for an address on the list or an exempt local one, nothing is refused or remembered. |
| ProbeGuard.AnswerClears | crates/sift-dns/src/probe.rs:167-173 | An answered connection clears its own address and no other. |
| Truncation.UdpLimit | crates/sift-dns/src/msg.rs:191-200 | The limit is what the request advertised, and never below 512. |
| Truncation.Response.Search | crates/sift-dns/src/msg.rs:232-259 | The bisection on the message itself finds the number of records the specification keeps. |
| Truncation.Response.Truncate | crates/sift-dns/src/msg.rs:232-259 | A message that fits is untouched; one that does not is cut to that many records and marked truncated exactly when one was dropped. |
| Truncation.BisectLocal | crates/sift-dns/src/msg.rs:232-259 | Whatever the sizes, what is kept fits unless it is nothing, and one record more does not. |
| Truncation.KeepsLongestPrefix | crates/sift-dns/src/msg.rs:232-259 | When size never falls as records are added and the bare message fits, exactly the prefixes up to the kept one fit. |
| Truncation.HopelessDropsAll | crates/sift-dns/src/msg.rs:232-259 | If even the bare message does not fit, every record goes. |
| Truncation.TruncatedIffRecords | crates/sift-dns/src/msg.rs:232-259 | A message that does not fit loses a record exactly when it has one. |
| Truncation.CutIsPrefix | crates/sift-dns/src/msg.rs:208-229 | The cut is a prefix of answers, then authorities, then additionals, split at the original boundaries. |
| BitMask.MaskIsClear | crates/sift-dns/src/server.rs:178-184 | And-ing with all ones shifted up clears exactly the low bits, for every width. |
| PrefixMask.MaskEqIsTopBits | crates/sift-config/src/types.rs:87-101 | Comparing masked bytes is comparing the top bits of the address as a number. |
| PrefixMask.MaskInPlace | crates/sift-dns/src/ratelimit.rs:156-173 | The zeroing loops clear exactly the bits past the prefix. |
| PrefixMask.InSubnetIsTop | crates/sift-dns/src/clients.rs:274-296 | Client subnets compare by top bits, `/0` and full length included. |
| PrefixMask.InNetIsTop | crates/sift-dns/src/server.rs:162-184 | `in_net` compares by top bits at every valid length except IPv6 `/0`, where it is equality of whole addresses. |
| PrefixMask.MaskIsMaskBytes | crates/sift-dns/src/edns.rs:45-68 | Masking the address as one number gives the same octets as masking it byte by byte. |
| PrefixMask.OneRelation | crates/sift-dns/src/ratelimit.rs:134-173 | At every valid length, containment in `types.rs` and `clients.rs` and equality of the masks of `ratelimit.rs`, `edns.rs` and `dns64.rs` are one relation, and `in_net` joins them except at IPv6 `/0`. |
| PrefixMask.NewPrefixes | crates/sift-dns/src/dns64.rs:35-56 | The usable prefixes are the IPv6 ones of at most 96 bits, masked, or the well-known one when there are none. |
| PrefixMask.UsableIff | crates/sift-dns/src/dns64.rs:35-56 | A prefix is usable exactly when it is the mask of a configured IPv6 one of at most 96 bits. |
| PrefixMask.FirstUsable | crates/sift-dns/src/dns64.rs:73-80 | The prefix addresses are mapped into is the first configured one that is usable. |
| PrefixMask.MappedIsContained | crates/sift-dns/src/dns64.rs:64-92 | A mapped address exists exactly when the feature is on, lies inside a configured prefix, and carries the IPv4 address it was made from. |
| Decimal.ValueOfDigits | crates/sift-core/src/bytesize.rs:69-85 | Reading a printed number gives the number. |
| ByteSize.ParseNumber | crates/sift-core/src/bytesize.rs:32-60 | A number followed by any unit spelling parses to their product when it fits 64 bits. |
| ByteSize.ParsesLoosely | crates/sift-core/src/bytesize.rs:32-60 | A number and a unit in either case, with any white space before, between and after, parse to their product when it fits 64 bits, and do not otherwise. |
| ByteSize.UnitValues | crates/sift-core/src/bytesize.rs:47-56 | The units are these spellings and no others, each a power of 1024. |
| ByteSize.RoundTrip | crates/sift-core/src/bytesize.rs:32-85 | Parsing undoes printing for every 64-bit size. |
| GoDuration.ParseDuration | crates/sift-core/src/duration.rs:89-181 | The index-walking parser computes the sum of components, with every error case. |
| GoDuration.SumParses | crates/sift-core/src/duration.rs:89-181 | Any sequence of components, each with digits, perhaps a dot and more digits, and a unit, parses with either sign to the sum of their values rounded down to nanoseconds, when that fits 128 bits. |
| GoDuration.FractionIs | crates/sift-core/src/duration.rs:163-175 | The first nineteen fraction digits count, over their power of ten, and no more. |
| GoDuration.OnlySumsParse | crates/sift-core/src/duration.rs:113-178 | Nothing else is read: a text that parses is such a sequence. |
| GoDuration.RoundTrip | crates/sift-core/src/duration.rs:89-213 | Parsing undoes printing for whole seconds of either sign that fit 128 bits. |

## Left out

- BoltRead.WalkTree: branch pages are followed to a given depth, because a damaged file whose branches form a cycle exhausts the stack instead of ending.  Trees of every height are read at a depth that is at least theirs, and built images at every depth, zero included.
- BoltWrite.Build: page planning and bucket bodies are values rather than growing vectors; the image itself and the meta pages are arrays written in place.  A page count times page size beyond the largest allocation is one `Panic` outcome, and running out of memory below that is not modelled.
- BoltPage.MetaTamperDetected: one changed byte; that two changes never cancel is not true of a 64-bit hash and is not claimed.
- Sessions.Store.Persist: the temporary file, the rename and the logging of a failed write are not modelled, nor are file permissions.
- Sessions.SessionsRoundTrip: asks for lower-case hex tokens and names of at most 65535 bytes that are valid UTF-8, which `lossy` stands for; expiries of any size are covered, as saturated by the encoder.
- CacheShard.Shard.Put: the TTL computed from the message and the estimated weight are parameters, and sharding by hash, the rewriting of record TTLs in the answer, and the wrap-around of the 64-bit sequence number are not modelled.
- CacheRuns.RunRefines: each shard is on its own, so a change of configuration is seen shard by shard.
- CacheRefinement.GetRefines: the clock is a parameter and may even run backwards, where ages saturate at zero as in the source.
- RefreshClaims.NoneLockedOut: a worker task that panics or is cancelled, and a queue closed at shutdown other than by refusing the job, are not modelled; that the remaining steps are eventually scheduled is the executor's promise.
- Pending.ReadsWhatWasPublished: the watch channel is modelled as a flag that is lost when nobody is subscribed.
- StreamPool.Pool.Take: the clock is read once per checkout rather than once per comparison; round-trip estimates and time budgets are not modelled.
- StreamExchange.AnsweredIff: the message decoder and encoder are abstract, a timeout is a stream that ends too soon, and partial writes are not modelled.
- PooledStreams.RepliesAreOwn: the other end sends one frame for each query and nothing unasked; when it arrives is left open.
- SharedDial.GateLetGo: counts steps; that a dial ends at all is the promise of its own time limit, and being abandoned frees the gate too.
- SharedDial.StampsUnique: the stamp counter does not wrap at 64 bits, and the connection-closing calls at shutdown are one step that empties the slot.
- UpstreamScope.CachedFromOwnPool: which settings and clients select a key, EDNS options and TTL clamping are not modelled; what an exchange returns is arbitrary.
- RateLimit.Limiter.Allow: tokens are real numbers, so floating-point rounding is not modelled; the subnet key is any function of the address (its masks are in `PrefixMask`).
- RateLimit.GrantsLimited: at a fixed configuration, as buckets are dropped whenever it is replaced.
- RateLimit.SweepIsInvisible: the clock is read before the lock is taken, so queries can be handled out of clock order; beyond 299 seconds of that, which no waiting for a lock explains, nothing is claimed.
- ProbeGuard.RefusalIsEarned: at a fixed configuration.  Its converse is `StrikesAreRefused`, which starts from an unmarked address and inside the window its first strike began; the very end of the window belongs to it unless the table is full and is swept first.  Events recorded out of clock order are covered, and may then precede the first strike.  The strike counter does not saturate, and local addresses are a set.
- PrefixMask.InNetIsTop: lengths beyond the address width and the debug-build panic of the full-width shift are not modelled.
- GoDuration.SumParses: a fraction that carries its component past 128 bits wraps in a release build, as in the source; only sums that fit are described.
- GoDuration.RoundTrip: sub-second printing uses floating point and is not modelled; the negation of the least 128-bit value, which overflows, is taken as mathematical.
- Truncation.Response.Truncate: the encoder is an abstract size, and everything but the three sections stays as it is.
- TLS, QUIC, HTTP/2, HTTP/3 and socket code: foreign libraries; a dial or an exchange is a step that may succeed or fail.
- The DNS wire codec, the filter engine, rule parsing, the query log, statistics, settings migration, schedules, routes and the user interface.
- Password hashing, token generation and cookies: library calls.
