# The memcached storage engine

A model of the four parts of memcached 1.4.36 (as trimmed in this repository) that hold the data,
and proofs about them:

* the **incremental hash table**: chains, doubling, bucket-by-bucket migration, and the lock
  striping that lets workers use the table meanwhile;
* the **slab allocator and page mover**: pages cut into chunks, a doubly linked freelist per class,
  the global page pool, the memory limit, and the machine that clears a page holding live items and
  hands it to another class;
* the **item lifecycle and the LRU lists**: reference counts, linking and unlinking, hits, eviction,
  asynchronous bumps, and the crawler that is spliced into the same lists;
* the **bip buffer**: a two-region ring buffer, read outside the lock between peek and poll.

## How it is built

Each part that changes memory is a class over the same fields as the source (`BipBuffer.BipBuf`,
`Assoc.HashTab`, `LruList.LruList`, `SlabClass.SlabClass`, `Slabs.Slabs`, `Cache.Cache`,
`Mover.Rebalance`), with one object per chunk of memory (`Items.Item`), whose `hNext`, `next` and
`prev` links serve the hash chain and either an LRU list or a freelist.  Every method states its
whole effect as a function of the old abstract value: the buffer's `View()`, the table's `t` and
`bindings`, the lists as sequences, and, for the cache as a whole, `Cache.View()`, which is a
`CacheSpec.State`: key bindings, LRU lists, freelists, item headers, and the references that are
held.  `CacheSpec.State` has one function per operation of items.c; `ItemLaws`, `Eviction`, `PullLaws`,
`Recency`, `AllocSpec` and `MoverSpec` prove what these functions promise, told in header fields, lists
and references.  `ItemRuns` breaks them down into the steps that one
thread takes under its locks, and proves what every run of such steps keeps; `ItemOwners` adds whose
each reference is, and `Operations` shows that gets, replacements, pulls and (in `MoverRuns`) turns of
the page mover are runs of these steps within the rights of the thread that takes them.  On this rest
the results about whole programs: `ItemOwners.OwnerKeepsItem`, `BumpQueue.QueuedAreHeld`,
`FlatRuns.RunEvictsOldest` and `MoverRuns.RunVacatesPage`.

What the parts must agree on is `CacheSpec.Told`: a chunk is linked exactly if it is in the hash table,
exactly if it is on an LRU list, and this is the list its slabs_clsid names; its count is 1 if linked
plus the number of holders; a free or cleared chunk is in neither and held by nobody.
`Cache.Valid()` contains this for every chunk, and every method keeps it.

Concurrency is modelled where the source relies on it: `AssocStripes` runs any interleaving of
workers that hold stripes with a migration that moves one item at a time, `BipProtocol` any
interleaving of a producer with a consumer between peek and poll, `LruSpec` a crawl with links,
unlinks and bumps in between, `BumpQueue` readers that queue bumps with the maintainer that works them
off, and `MoverRuns` the sweeps of the page mover among the steps of all other threads.

Parameters stand for what the model cannot see: the hash function, the clock, which stripes other
threads hold when one is try-locked (`busy`, `locked`), the slab class of a size, the bytes requested
of a slab class.

Results that differ from what the code seems to promise:

* A poll of more bytes than region A holds can be accepted, and then damages the queue
  (`BipBuffer.PollDequeuesIff`, `BipBuffer.PollBeyondAAccepted`); all callers poll what they peeked.
* The memory limit is checked before sizes are rounded up to 8 bytes.  That mem_malloced never passes
  mem_limit is true of this program, whose limits are whole GiB (`Memory.StartNeverPasses`), but not of
  every account the functions can be given: `Memory.AllRunsWithinIff` is the exact condition,
  `Memory.RoundingPassesLimit` an account outside it.
* The start-up check of lock table against hash table suffices for buckets to have one stripe each
  (`AssocStripes.StartCheckSuffices`), but refuses a lock table of the same size, which would do too.
* A hit keeps the recency order only if it relinks the item or finds it at the head
  (`FlatRuns.HitSortedIff`).  With a clock below 60 the unsigned guard wraps and every hit
  relinks (`Recency.StaleExactly`), so here, where the clock stays at 0, the order always holds
  (`FlatRuns.RunSorted`).
* A pull that is to give up at a crawler returns 0 there even if it has reclaimed items
  (`PullLaws.CountIsLost`); in all other cases its result is their number (`PullLaws.WalkCounts`).
* The tenth round of an allocation may still evict, but nobody looks for the chunk any more
  (`AllocSpec.LastRoundIsLost`); in the first nine an eviction that frees a chunk serves
  (`AllocSpec.FailureMeansHeld`).
* Room in the destination's page list is only seen to at the start of a page move.  Pages that the
  class gets meanwhile can take it (`PageRoom.RoomCanGo`); `PageRoom.RoomLastsIff` says exactly when.
* assoc_insert adds a binding only if the key is not bound; otherwise the table
  no longer represents the map (`HashTable.InsertIffAbsent`).

## Model

| member | source | states |
|---|---|---|
| BipBuffer.EmptyIsQueue | 3rd/memcached-1.4.36/bipbuffer.c:42-47 | a new buffer is valid and empty, whatever its memory holds |
| BipBuffer.StoreKeepsContents | 3rd/memcached-1.4.36/bipbuffer.c:109-128 | bytes stored where a request pointed change nothing that is queued |
| BipBuffer.PushAppends | 3rd/memcached-1.4.36/bipbuffer.c:91-107 | a push appends exactly the bytes at the write position, or is refused when they do not fit; the index invariant is kept |
| BipBuffer.OfferEnqueues | 3rd/memcached-1.4.36/bipbuffer.c:109-128 | an offer is accepted if and only if it fits, and then appends exactly the given bytes to the queue |
| BipBuffer.PollCursors | 3rd/memcached-1.4.36/bipbuffer.c:151-180 | how a poll within region A of a buffer that is not empty moves the cursors, including replacing A by B when A runs empty; for longer polls see PollDequeuesIff |
| BipBuffer.PollDequeuesIff | 3rd/memcached-1.4.36/bipbuffer.c:151-180 | an accepted poll of n returns and removes exactly the first n bytes if and only if region A holds at least n |
| BipBuffer.PollBeyondAAccepted | 3rd/memcached-1.4.36/bipbuffer.c:151-180 | an input that is accepted and breaks the buffer: 5 bytes polled where region A holds 3 |
| BipBuffer.QueriesReport | 3rd/memcached-1.4.36/bipbuffer.c:23-68 | used is the length of the queue, is_empty holds exactly if it is empty, used and unused do not exceed the size |
| BipBuffer.SwitchKeepsContents | 3rd/memcached-1.4.36/bipbuffer.c:70-75 | switching to region B leaves the queue as it is |
| BipBuffer.RequestThenPush | 3rd/memcached-1.4.36/bipbuffer.c:77-107 | after a successful request of n, writing and pushing at most n bytes succeeds and appends exactly these |
| BipBuffer.RequestGrantedIff | 3rd/memcached-1.4.36/bipbuffer.c:77-89 | a request is granted if and only if n bytes fit between the write position and region A, or the end of the array |
| BipBuffer.StaysRoomy | 3rd/memcached-1.4.36/bipbuffer.c:70-75 | every operation switches to region B as soon as there is more room before A than after it; a request refused outside B would fit nowhere |
| BipBuffer.BipBuf.Request | 3rd/memcached-1.4.36/bipbuffer.c:77-89 | the method, with its switch to B, refines the specification |
| BipBuffer.BipBuf.Push | 3rd/memcached-1.4.36/bipbuffer.c:91-107 | the method refines the specification |
| BipBuffer.BipBuf.Offer | 3rd/memcached-1.4.36/bipbuffer.c:109-128 | the method, copying into the array, refines the specification |
| BipBuffer.BipBuf.PeekAll | 3rd/memcached-1.4.36/bipbuffer.c:142-149 | the region handed out is all of A |
| BipBuffer.BipBuf.Poll | 3rd/memcached-1.4.36/bipbuffer.c:151-180 | the method refines the specification |
| BipProtocol.RunKeepsInv | 3rd/memcached-1.4.36/bipbuffer.c:70-180 | over every interleaving of one producer and one consumer the buffer is well formed, regions A and B are each a concatenation of whole records, and an open window is a prefix of A |
| BipProtocol.EveryRecordOnceInOrder | 3rd/memcached-1.4.36/bipbuffer.c:70-149 | a consumer that polls what it peeked sees every accepted record once, whole and in order |
| BipProtocol.PeekedBytesAreStable | 3rd/memcached-1.4.36/bipbuffer.c:142-180 | whatever the producer does between peek and poll, the peeked bytes stay and the poll removes exactly them |
| BipProtocol.PeekedLengthIsWhole | 3rd/memcached-1.4.36/items.c:1251-1261 | with records of one size the peeked length is a multiple of it, so the countdown ends at zero |
| HashTable.FindIsLookup | 3rd/memcached-1.4.36/assoc.c:79-106 | in every state, also halfway through a migration, a find of a key not in motion is a lookup in the abstract map |
| HashTable.InsertIsAdd | 3rd/memcached-1.4.36/assoc.c:160-185 | inserting an unbound key adds it to the map, and the counter stays the size of the map |
| HashTable.InsertIffAbsent | 3rd/memcached-1.4.36/assoc.c:159-185 | insertion represents the extended map if and only if the key was unbound, also while another bucket is half migrated |
| HashTable.ExpansionAskedIff | 3rd/memcached-1.4.36/assoc.c:176-180 | an insertion asks for an expansion if and only if none is under way and the map has more than three keys for two buckets |
| HashTable.DeleteIsRemove | 3rd/memcached-1.4.36/assoc.c:187-208 | deletion removes the key from the map; an unbound key changes nothing |
| HashTable.ExpandKeepsMap | 3rd/memcached-1.4.36/assoc.c:130-149 | starting an expansion keeps the map |
| HashTable.MoveOneKeepsMap | 3rd/memcached-1.4.36/assoc.c:233-238 | moving one item to its new bucket keeps the map, also with the rest of the bucket unmoved |
| HashTable.MigrateKeepsMap | 3rd/memcached-1.4.36/assoc.c:232-252 | migrating a bucket and stepping the cursor keeps the map |
| HashTable.HalfwayShape | 3rd/memcached-1.4.36/assoc.c:79-86 | during an expansion old buckets below the cursor are empty, and so are the new buckets whose low bits are at or above it |
| HashTable.LandsInTwoBuckets | 3rd/memcached-1.4.36/assoc.c:235-237 | an item of old bucket b goes to new bucket b or b + 2^(hashpower-1) |
| HashTable.MigrateManyKeepsMap | 3rd/memcached-1.4.36/assoc.c:223-252 | n steps keep the map, and the expansion is still on exactly as long as buckets are left |
| HashTable.ExpansionEnds | 3rd/memcached-1.4.36/assoc.c:242-252 | the expansion is over after exactly 2^(hashpower-1) steps and not before; all old chains are then empty, and the new table alone holds the map |
| Assoc.HashTab.Find | 3rd/memcached-1.4.36/assoc.c:79-106 | walking the links finds the item bound to the key, or null |
| Assoc.HashTab.Insert | 3rd/memcached-1.4.36/assoc.c:160-185 | the links and counters change as specified, and the item is bound |
| Assoc.HashTab.Delete | 3rd/memcached-1.4.36/assoc.c:187-208 | the item is cut out of its chain wherever it is, and unbound |
| Assoc.HashTab.Expand | 3rd/memcached-1.4.36/assoc.c:130-149 | a fresh array of twice the size takes over and the map stays; without memory for it nothing changes |
| Assoc.HashTab.Migrate | 3rd/memcached-1.4.36/assoc.c:232-252 | relinking all items of a bucket one after the other keeps the map and every chain |
| AssocStripes.BucketSharesStripe | 3rd/memcached-1.4.36/assoc.c:228-232 | all keys of an old bucket, and of the two new ones, have the stripe of the bucket |
| AssocStripes.StripesDivideBuckets | 3rd/memcached-1.4.36/thread.c:731-736 | every bucket of a table has one stripe if and only if there are no more stripes than buckets |
| AssocStripes.StartCheckSuffices | 3rd/memcached-1.4.36/thread.c:731-736 | a table that passes the start-up check keeps the invariant in all runs and every bucket to be migrated has one stripe; the check refuses one size more than it must |
| AssocStripes.RunKeepsInv | 3rd/memcached-1.4.36/assoc.c:216-282 | over every interleaving of workers and migration the table represents the history's map, and the bucket in motion is locked |
| AssocStripes.OthersKeepView | 3rd/memcached-1.4.36/assoc.c:228-242 | no step of another thread changes the routing of a key whose stripe is held, nor its chain |
| AssocStripes.RouteIsStable | 3rd/memcached-1.4.36/assoc.c:228-252 | the same over whole runs of the other threads |
| AssocStripes.InterruptedFindIsLookup | 3rd/memcached-1.4.36/assoc.c:79-106 | a find that starts before and ends after steps of others is a lookup in the map |
| LruSpec.CrawlStepKeepsOrder | 3rd/memcached-1.4.36/items.c:1609-1661 | a crawl step keeps the order of all other nodes and moves the crawler one place towards the head |
| LruSpec.FullCrawlReturnsEach | 3rd/memcached-1.4.36/items.c:1565-1661 | over a full crawl with any links, bumps and unlinks in between, the items left alone until they are seen are returned, by first visit from tail to head, whatever happens to them afterwards |
| LruSpec.FullCrawlReturnsOnce | 3rd/memcached-1.4.36/items.c:1565-1661 | each of them exactly once if it is not put at the head again; it may be unlinked once it was seen, as the expiry pass does |
| LruSpec.FullCrawlSeesOnce | 3rd/memcached-1.4.36/items.c:1565-1661 | the same for one item: its number of visits is 1 |
| LruList.LruList.LinkQ | 3rd/memcached-1.4.36/items.c:384-400 | the item becomes the head; links, ends and both counters stay exact |
| LruList.LruList.UnlinkQ | 3rd/memcached-1.4.36/items.c:415-436 | exactly this item leaves, at the head, the tail or in between; counters stay exact |
| LruList.LruList.LinkTailQ | 3rd/memcached-1.4.36/items.c:1565-1584 | the crawler becomes the tail and does not count |
| LruList.LruList.UnlinkTailQ | 3rd/memcached-1.4.36/items.c:1586-1605 | the crawler leaves, also right after it was popped at the head |
| LruList.LruList.CrawlQ | 3rd/memcached-1.4.36/items.c:1609-1661 | the pointer shuffle is the crawl step of the specification; null exactly at the head |
| Cache.Cache.Expand | 3rd/memcached-1.4.36/assoc.c:130-149 | in the running cache the table doubles, or stays if there is no memory, and nothing else changes |
| Cache.Cache.Migrate | 3rd/memcached-1.4.36/assoc.c:232-252 | in the running cache a bucket migrates, its items staying on their lists; bindings and everything else are the same |
| Cache.Cache.CrawlerIn | 3rd/memcached-1.4.36/items.c:1565-1584 | a crawler joins its list in the running cache, which stays valid |
| Cache.Cache.CrawlOn | 3rd/memcached-1.4.36/items.c:1609-1661 | a crawl step in the running cache |
| Cache.Cache.CrawlerOut | 3rd/memcached-1.4.36/items.c:1586-1605 | the crawler leaves its list in the running cache |
| Recency.StaleExactly | 3rd/memcached-1.4.36/items.c:543-543 | the unsigned guard holds always in the first minute, and later exactly after a minute |
| FlatRuns.HitSortedIff | 3rd/memcached-1.4.36/items.c:525-552 | at any time of the clock, in a cache in order: a hit keeps the list sorted by last use if and only if it relinks the item or finds it first |
| FlatRuns.StepGood | 3rd/memcached-1.4.36/items.c:384-552 | with the clock below a minute each step of flat mode keeps all lists sorted by last link or hit, crawlers not counted |
| FlatRuns.RunSorted | 3rd/memcached-1.4.36/items.c:384-552 | so does every run of them, whatever threads take the steps |
| FlatRuns.RunEvictsOldest | 3rd/memcached-1.4.36/items.c:996-1172 | after any such run an eviction takes the least recently used of the items that are alive and not busy, and changes no other live item |
| FlatRuns.DoneIsFlat | 3rd/memcached-1.4.36/items.c:876-981 | gets, replacements, evictions and page moves in flat mode are such runs |
| Recency.VictimIff | 3rd/memcached-1.4.36/items.c:1013-1036 | whom an eviction takes, told by places: an item is the victim if and only if it is neither the crawler nor busy, all nodes behind it are, and these are fewer than the tries, the crawler not counted |
| Recency.VictimIsOldest | 3rd/memcached-1.4.36/items.c:1013-1036 | the walk from the tail picks the least recently used of the items it may take |
| Recency.NoVictim | 3rd/memcached-1.4.36/items.c:1013-1036 | it picks none only if all items are crawler or busy, when there are more tries than busy items |
| CacheSpec.ConsistentFor | 3rd/memcached-1.4.36/items.c:384-561 | agreement of flags, counts, table and lists is a matter of each chunk alone |
| CacheSpec.ConsistentLink | 3rd/memcached-1.4.36/items.c:444-464 | linking keeps the agreement |
| CacheSpec.ConsistentOut | 3rd/memcached-1.4.36/items.c:466-480 | unlinking keeps it, the reference of being linked passing to the caller |
| CacheSpec.ConsistentDrop | 3rd/memcached-1.4.36/items.c:499-507 | dropping a reference keeps it; a chunk whose last one goes is in no list |
| CacheSpec.ConsistentRelist | 3rd/memcached-1.4.36/items.c:525-552 | moving between lists keeps it |
| CacheSpec.ConsistentMove | 3rd/memcached-1.4.36/slabs.c:984-998 | replacing a page of cleared chunks keeps it |
| CacheSpec.WorkStays | 3rd/memcached-1.4.36/items.c:466-552 | unlinking, hitting, holding and releasing an item leave chunks that the mover cleared alone |
| CacheSpec.GetStays | 3rd/memcached-1.4.36/items.c:876-981 | so does finding an item |
| CacheSpec.ReplaceStays | 3rd/memcached-1.4.36/items.c:554-561 | so does replacing one |
| ItemLaws.DropFreesLast | 3rd/memcached-1.4.36/items.c:499-507 | a release frees the item if and only if it was not linked and this was the last reference; then its chunk heads the freelist of its class |
| ItemLaws.RetireKeepsHolders | 3rd/memcached-1.4.36/items.c:1036-1070 | retiring an item unbinds and unlists it; it is freed if and only if no reader holds it, else the readers' references are what remains |
| ItemLaws.UnlinkUndoesLink | 3rd/memcached-1.4.36/items.c:444-480 | unlinking a just linked item restores the whole state but the item's time |
| ItemLaws.ReplaceRebinds | 3rd/memcached-1.4.36/items.c:554-561 | the key goes to the new item, which heads its list with a new count; the old one leaves its list and is freed if and only if nobody holds it; all other lists, freelists, headers and references stay |
| ItemLaws.GetReturnsHeld | 3rd/memcached-1.4.36/items.c:876-981 | a hit adds one reference for the reader and one for a queued bump, keeps all bindings and the content; an expired item is unbound |
| ItemLaws.GetSees | 3rd/memcached-1.4.36/items.c:115-126 | which items a get returns, in header fields and times: without expiry and flush always; with an expiry exactly until then; a flush hides exactly the items touched up to its time, from its time on |
| ItemLaws.PlainGetOnlyHolds | 3rd/memcached-1.4.36/items.c:876-981 | a get that is not to update takes its reference and leaves no other trace |
| ItemLaws.DeadIsGoneBefore | 3rd/memcached-1.4.36/items.c:1056-1057 | pulls and the page mover give an expired item up one second after readers stop seeing it; a flush they see as readers do |
| ItemLaws.FlatHitMoves | 3rd/memcached-1.4.36/items.c:525-552 | in flat mode a hit marks the item and, if its time is stale, puts it at the head of its list; nothing else changes |
| ItemLaws.SecondHitActivates | 3rd/memcached-1.4.36/items.c:943-969 | in segmented mode, outside COLD, it takes two hits to make an item active; more change nothing, and none moves it |
| ItemLaws.SecondHitWarms | 3rd/memcached-1.4.36/items.c:943-969 | on a COLD list the second hit queues a bump, which puts the item at the head of WARM and leaves all references as before; without room for it the hit leaves no trace |
| ItemRuns.StepInOrder | 3rd/memcached-1.4.36/items.c:384-561 | every step operations are made of keeps flags, counts, table, LRU lists and freelists in agreement: an item is on the list that slabs_clsid names, once, if and only if it is linked, a chunk on the freelist of its class, once, if and only if it is free |
| ItemRuns.RunInOrder | 3rd/memcached-1.4.36/items.c:384-561 | so does every run, with chunks handed out and freed, pages that come and go, and crawlers on the lists |
| ItemRuns.RunCountsReferences | 3rd/memcached-1.4.36/items.c:499-507 | over all runs the references held are those taken less those dropped since the chunk was last handed out |
| ItemRuns.HeldIsNotFreed | 3rd/memcached-1.4.36/items.c:996-1172 | whoever takes and drops references meanwhile: an item with a reference left is on no freelist, and its count is that of the references left, and one for being linked |
| ItemOwners.OwnerKeepsItem | 3rd/memcached-1.4.36/items.c:996-1172 | while one owner keeps its reference, no run of all the others, each dropping only what it holds, frees the item or changes its key, value or expiry; evictions, replacements, bumps and page moves included |
| Operations.GetIsRun | 3rd/memcached-1.4.36/items.c:876-981 | a get is a run of the reader and the bump buffer, and leaves the reader with a reference of its own |
| Operations.DoPullWalk | 3rd/memcached-1.4.36/items.c:996-1172 | a pull from the tail of any list is a run of the thread that pulls |
| Operations.PullSparesHeld | 3rd/memcached-1.4.36/items.c:1036-1169 | no pull frees an item that another one holds, nor changes its content |
| BumpQueue.QueuedAreHeld | 3rd/memcached-1.4.36/items.c:1199-1269 | from queueing a bump until it is worked off, and between one entry and the next, whatever the other threads do: each entry holds exactly one reference, its item is not freed, and the maintainer may drop it |
| Cache.Cache.Hold | 3rd/memcached-1.4.36/items.c:880-880 | refcount_incr |
| Cache.Cache.DoItemRemove | 3rd/memcached-1.4.36/items.c:499-507 | the count goes down, and at 0 the chunk goes to its freelist |
| Cache.Cache.UnlinkOut | 3rd/memcached-1.4.36/items.c:469-477 | flag, hash chain and LRU links all change, in memory, as specified |
| Cache.Cache.DoItemLink | 3rd/memcached-1.4.36/items.c:444-464 | flag, time, hash chain, LRU links and count all change, in memory, as specified |
| Cache.Cache.Relist | 3rd/memcached-1.4.36/items.c:533-537 | the item moves to the head of another list of its class |
| Cache.Cache.Grow | 3rd/memcached-1.4.36/slabs.c:217-248 | a new page leaves all items as they are and adds free chunks |
| Lifecycle.CacheInOrder | 3rd/memcached-1.4.36/items.c:384-561 | every valid cache meets the assumptions of the laws |
| Lifecycle.DoItemUnlink | 3rd/memcached-1.4.36/items.c:466-497 | refines the specification; an unlinked item is left alone |
| Lifecycle.DoItemReplace | 3rd/memcached-1.4.36/items.c:554-561 | refines the specification |
| Lifecycle.DoItemUpdateNolock | 3rd/memcached-1.4.36/items.c:511-523 | refines the specification |
| Lifecycle.DoItemUpdate | 3rd/memcached-1.4.36/items.c:525-552 | refines the specification, in flat and in segmented mode |
| Lifecycle.Touch | 3rd/memcached-1.4.36/items.c:943-969 | the hit markers, and which hits queue a bump that holds a reference |
| Lifecycle.DoItemGet | 3rd/memcached-1.4.36/items.c:876-981 | returns the bound item, with the reference it takes, if and only if it is neither expired nor flushed, told in its header fields |
| Lifecycle.BumpsRelease | 3rd/memcached-1.4.36/items.c:1251-1261 | working off a buffer of bumps drops, for every item, exactly one reference per entry |
| Lifecycle.LruMaintainerBumps | 3rd/memcached-1.4.36/items.c:1236-1269 | the countdown loop updates and releases each entry once |
| Eviction.PullOneOnly | 3rd/memcached-1.4.36/items.c:1036-1169 | one item pulled changes that item alone, and leaves no reference over or short |
| PullLaws.PullOutcome | 3rd/memcached-1.4.36/items.c:1036-1169 | what a pull does with an item, whatever the list: it is taken from the table if and only if it is expired or flushed, or COLD and to be evicted, and its chunk is free if nobody holds it; else it stays bound with its content, and moves exactly from HOT or COLD to WARM if active, from HOT or WARM to COLD if not active and the list over its limit or the item too old |
| PullLaws.DrainsIff | 3rd/memcached-1.4.36/items.c:1077-1109 | an item of HOT or WARM that is not active leaves for COLD if and only if its list holds more than its share of the bytes of the class, in percent, or it is too old |
| Eviction.PullItem | 3rd/memcached-1.4.36/items.c:1036-1169 | reclaiming, moving between HOT, WARM and COLD, and evicting refine the specification |
| Eviction.LruPullTail | 3rd/memcached-1.4.36/items.c:996-1172 | the walk from the tail, skipping crawlers and busy items, over a list that changes under it, is exactly the specified walk, for every segment, with the byte counts of the list at each item |
| Eviction.WalkIsCold | 3rd/memcached-1.4.36/items.c:996-1172 | on a COLD list it takes the nodes as they stood at its start |
| PullLaws.WalkSpares | 3rd/memcached-1.4.36/items.c:996-1172 | without eviction a pull from any list takes only dead items from the table; all that are alive stay bound and linked |
| PullLaws.WalkKeeps | 3rd/memcached-1.4.36/items.c:996-1172 | no pull binds anything, changes who holds what, or takes a chunk off a freelist |
| PullLaws.WalkCounts | 3rd/memcached-1.4.36/items.c:996-1172 | the result is the number of items that left the list; only a pull that gives up at a crawler on the list may return 0 instead |
| PullLaws.CountIsLost | 3rd/memcached-1.4.36/items.c:1019-1025 | an input for which it does: one item is reclaimed, and 0 returned |
| PullLaws.EvictTakesMet | 3rd/memcached-1.4.36/items.c:996-1172 | an eviction takes from the table exactly the items it meets, frees those that nobody holds, returns more than 0 if and only if it met any, and touches no item of other lists |
| PullLaws.PullTakesDead | 3rd/memcached-1.4.36/items.c:1055-1070 | any pull from COLD takes the dead items it meets from the table, and frees those that nobody holds |
| Eviction.PullColdEvicts | 3rd/memcached-1.4.36/items.c:1111-1150 | an eviction unlinks the victim and touches no other live item |
| Eviction.EvictionTakesOldest | 3rd/memcached-1.4.36/items.c:996-1172 | on a list sorted by last use, as FlatRuns.RunSorted has it, the evicted item is the least recently used of those alive and not busy |
| Eviction.VainPull | 3rd/memcached-1.4.36/items.c:996-1172 | an eviction that removes nobody has met only the crawler and busy items; with fewer busy items than tries the list holds no others |
| AllocSpec.ChunkIsTaken | 3rd/memcached-1.4.36/items.c:182-201 | while the class has a free chunk an allocation takes it at once and takes nobody alive from the table |
| AllocSpec.DeadServes | 3rd/memcached-1.4.36/items.c:184-187 | in flat mode a dead item that nobody holds, met at the tail, gives its chunk before anything is evicted |
| AllocSpec.UnheldVictimServes | 3rd/memcached-1.4.36/items.c:182-201 | without chunk and page, in any round but the tenth: if nobody holds the first item from the COLD tail that is alive and not busy, the next round gets a chunk; of all that are alive only that item has been unbound |
| AllocSpec.FailureMeansHeld | 3rd/memcached-1.4.36/items.c:182-201 | an allocation that fails met in each of its rounds, but perhaps the tenth, only busy and held items and crawlers |
| AllocSpec.GivesUpOnNobody | 3rd/memcached-1.4.36/items.c:193-199 | it gives up before the tenth round only in flat mode, and having met nobody |
| AllocSpec.NobodyMetEndsIt | 3rd/memcached-1.4.36/items.c:193-199 | and then at once |
| AllocSpec.HotServes | 3rd/memcached-1.4.36/items.c:193-199 | in segmented mode an allocation does not fail while COLD is empty and HOT ends in an item alive that is neither active nor busy nor held |
| AllocSpec.LastRoundIsLost | 3rd/memcached-1.4.36/items.c:182-201 | the tenth round fails if there is no chunk, whatever it evicts |
| Allocation.SlabsAlloc | 3rd/memcached-1.4.36/slabs.c:251-296 | hands out the first free chunk, after a new page if there was none; null if and only if there was no chunk and no page to be had |
| Allocation.DoItemAllocPull | 3rd/memcached-1.4.36/items.c:172-218 | is the specified rounds, and keeps their promise: at once if there is a chunk or a page, and then nobody alive is taken; after one eviction if its victim is not held; null only if every round but the tenth met only busy and held items; nothing gets bound, and every reference held stays |
| Allocation.DoItemAlloc | 3rd/memcached-1.4.36/items.c:256-351 | a new item comes from a free chunk, with the header asked for, held by the caller alone; null only for invalid sizes or when the rounds failed, with the promise of DoItemAllocPull |
| Allocation.FirstListIs | 3rd/memcached-1.4.36/items.c:313-324 | the list a new item starts on: COLD in flat mode, HOT in segmented mode, TEMP if there is such a list and the item expires soon, counted in 32 bits |
| SlabClass.SlabClass.Conservation | 3rd/memcached-1.4.36/slabs.c:197-296 | free chunks, counted by sl_curr, and handed-out chunks are disjoint and together are slabs * perslab |
| SlabClass.SlabClass.Free | 3rd/memcached-1.4.36/slabs.c:350-378 | the chunk heads a well-formed freelist |
| SlabClass.SlabClass.Alloc | 3rd/memcached-1.4.36/slabs.c:273-286 | the first chunk leaves a well-formed freelist |
| SlabClass.SlabClass.CutFree | 3rd/memcached-1.4.36/slabs.c:706-715 | a chunk leaves the freelist wherever it is |
| SlabClass.SlabClass.Grow | 3rd/memcached-1.4.36/slabs.c:185-195 | there is room for one more page |
| SlabClass.SlabClass.AddPage | 3rd/memcached-1.4.36/slabs.c:197-243 | a page is cut into perslab fresh chunks, all free; conservation is kept |
| SlabClass.SlabClass.RemoveFirst | 3rd/memcached-1.4.36/slabs.c:988-991 | the first page leaves with its chunks; conservation is kept |
| Slabs.Slabs.FreeChunk | 3rd/memcached-1.4.36/slabs.c:350-378 | over all classes: one freelist gets the chunk, no other changes |
| Slabs.Slabs.AllocChunk | 3rd/memcached-1.4.36/slabs.c:273-286 | over all classes: one freelist gives its head |
| Slabs.Slabs.ClearFree | 3rd/memcached-1.4.36/slabs.c:706-715 | a free chunk is cut out and marked |
| Slabs.Slabs.NewSlab | 3rd/memcached-1.4.36/slabs.c:217-248 | refused at the limit, which is then noted, else a page from the pool, or new memory only if the pool is empty; every page is in exactly one list, and the account has been charged for each of them |
| Slabs.Slabs.MovePage | 3rd/memcached-1.4.36/slabs.c:984-1002 | one page goes from the head of one list to the end of another; no page is lost or doubled |
| Memory.FreshOnlyWithinLimit | 3rd/memcached-1.4.36/slabs.c:225-238 | memory is taken only if the pool is empty and the limit check passed |
| Memory.RunIsCharged | 3rd/memcached-1.4.36/slabs.c:479-508 | over any run the account grows by exactly what the new pages took, rounded if they come out of the block, and the block shrinks by as much |
| Memory.BoughtWithinLimit | 3rd/memcached-1.4.36/slabs.c:217-248 | the sizes of the pages a run takes as new memory add up to no more than the limit leaves |
| Memory.NextPageIs | 3rd/memcached-1.4.36/slabs.c:217-248 | after any run a request is refused if and only if the pool is empty and what was taken leaves too little below the limit; a page that fits is not refused |
| Memory.PagesOfOneSize | 3rd/memcached-1.4.36/slabs.c:217-248 | with pages of one size and an empty pool a run gets exactly as many as fit below the limit |
| Memory.PageWithinIff | 3rd/memcached-1.4.36/slabs.c:479-508 | one page carries the account past the limit if and only if it comes out of the block, is there, and its size lies between the last aligned one that fits and what is left |
| Memory.AllRunsWithinIff | 3rd/memcached-1.4.36/slabs.c:479-508 | all runs of requests stay within the limit if and only if there is no block, or what is left below the limit is a multiple of 8, or the block ends before it matters |
| Memory.StartNeverPasses | 3rd/memcached-1.4.36/slabs.c:94-117 | from the account of slabs_init, whose limit is whole GiB, no run passes the limit, with pages of any size |
| Memory.RoundingPassesLimit | 3rd/memcached-1.4.36/slabs.c:479-508 | an account outside this condition, and a page that carries it past its limit; this program sets neither |
| Memory.RunWithin | 3rd/memcached-1.4.36/slabs.c:217-248 | from an account as in AllRunsWithinIff, or with page sizes that are multiples of 8, no run of requests passes the limit |
| Memory.RunNearlyWithin | 3rd/memcached-1.4.36/slabs.c:479-508 | in any case a run passes it by less than 8 bytes |
| MoverSpec.GrabFacts | 3rd/memcached-1.4.36/slabs.c:672-702 | the chunk found for a rescue is free and outside the page; free chunks of the page that came up are cleared; no item changes |
| MoverSpec.RescueIs | 3rd/memcached-1.4.36/slabs.c:857-891 | the whole state after a rescue: the copy is bound, heads the item's list, has count 1; the old chunk is cleared |
| MoverSpec.WipeIs | 3rd/memcached-1.4.36/slabs.c:901-909 | the whole state after an item is given up |
| MoverSpec.MoveOneFacts | 3rd/memcached-1.4.36/slabs.c:748-931 | one chunk moved: cleared ones stay, this one is cleared unless busy, other keys keep chunk and header, a rescued key goes to a chunk outside the page with the same key, value and expiry |
| MoverSpec.MoveOutcome | 3rd/memcached-1.4.36/slabs.c:748-931 | a chunk counts as busy if and only if it is not cleared afterwards: free ones are cleared, held, locked and uploading ones left alone; a linked one is rescued if and only if it is alive and there is a free chunk outside the page, else given up |
| MoverSpec.GrabFinds | 3rd/memcached-1.4.36/slabs.c:672-702 | a chunk for a rescue is found if and only if there is a free one outside the page |
| MoverSpec.PassEnds | 3rd/memcached-1.4.36/slabs.c:938-949 | whatever happens in between, a pass is over after exactly as many turns as the page has chunks: done if none was busy, else from the top with nothing counted |
| MoverSpec.RunClears | 3rd/memcached-1.4.36/slabs.c:738-954 | over any interleaving with changes that leave cleared chunks alone and any number of restarted passes: cleared chunks stay cleared, and done means that every chunk of the page is |
| MoverRuns.DoMoveOne | 3rd/memcached-1.4.36/slabs.c:748-931 | a turn of the mover is a run of steps of its own, with rights to what it drops and clears |
| MoverRuns.TurnIsLegal | 3rd/memcached-1.4.36/slabs.c:738-954 | whenever the cache is in order the mover can take its turn |
| MoverRuns.RunVacatesPage | 3rd/memcached-1.4.36/slabs.c:738-954 | from a cache in order, among any steps of the other threads: it stays in order, cleared chunks stay cleared, and when the mover is done no binding, list, freelist or reference leads to a chunk of the page |
| MoverRuns.DoneWhenCalm | 3rd/memcached-1.4.36/slabs.c:938-949 | as long as no turn is busy the mover is done after exactly the turns to go, at most twice the chunks of the page |
| MoverRuns.DoneWhenQuiet | 3rd/memcached-1.4.36/slabs.c:738-954 | if no chunk of the page is held, locked or uploading any more, the mover is done after at most three times the chunks of the page, with every item rescued or given up |
| MoverSpec.OneTurn | 3rd/memcached-1.4.36/slabs.c:738-954 | a call with the default bulk is one turn of the run |
| Mover.ChunkIsMovable | 3rd/memcached-1.4.36/slabs.c:748-821 | a valid cache meets the mover's assumptions |
| Mover.SlabRebalanceAlloc | 3rd/memcached-1.4.36/slabs.c:672-702 | the loop refines the specification |
| Mover.MoveFromLru | 3rd/memcached-1.4.36/slabs.c:822-916 | expired items and those without memory are given up, others rescued, as specified |
| Mover.MoveChunk | 3rd/memcached-1.4.36/slabs.c:748-931 | free, linked, locked, held and uploading chunks are told apart and treated as specified |
| Mover.Rebalance.SlabRebalanceStart | 3rd/memcached-1.4.36/slabs.c:619-669 | which moves are refused with which code, and what a move starts with |
| Mover.Rebalance.SlabRebalanceMove | 3rd/memcached-1.4.36/slabs.c:738-954 | a call is as many turns as specified; at the end of the page it is done if the pass had no busy chunk, and else starts over with nothing counted; done only if all chunks are cleared |
| Mover.Rebalance.SlabRebalanceFinish | 3rd/memcached-1.4.36/slabs.c:956-1031 | the cleared page goes to its new class, which cuts it anew; the source keeps a page; bindings, lists and all other chunks stay |
| Cache.Cache.MovePage | 3rd/memcached-1.4.36/slabs.c:984-1002 | in the running cache, a page whose chunks are all cleared changes class, and nothing else changes |
| PageRoom.RoomLastsIff | 3rd/memcached-1.4.36/slabs.c:185-195 | room in a page list lasts through n new pages if and only if these do not fill the list or a doubling of it |
| PageRoom.RoomCanGo | 3rd/memcached-1.4.36/slabs.c:634-638 | a list whose room goes before the page arrives |

## Left out

- CAS ids and the part of item_is_flushed that compares them; 16-bit and 8-bit limits of counts and key lengths.
- Chunked items (ITEM_CHUNKED, ITEM_CHUNK) and tail_repair_time > 0, which overrides reference counts on purpose.
- Statistics counters, the requested byte total of a slab class, and the size histogram; totals that steer LRU draining are parameters.
- slabs_clsid: the slab class of a size is a parameter, with 0 for a size that is too large.
- Sockets, protocols, logging, thread start and stop, and pause_threads: an expansion starts with all threads paused.
- Failing malloc, other than for a larger hash table.
- SlabClass.SlabClass.Grow: a larger page list is always granted.
- Mover.Rebalance.SlabRebalanceStart: so result -1, for a list that cannot grow, does not occur.
- Memory.StartNeverPasses: the environment variable T_MEMD_INITIAL_MALLOC, which fakes the initial account for tests, is not modelled.
- memory_release and a memory limit that changes while the program runs, which it can only without a preallocated block.
- slabs_reassign and the choice of source class, also from lru_pull_tail with slab_automove 2; a move starts with given classes.
- slab_rebalance_thread: what start, move and finish require of each other is in their contracts; its sleeping and signalling is not modelled.
- LRU maintainer juggling and its heuristics; only its bumps and tail pulls are modelled.
- Mover.MoveChunk: one chunk's turn is one step; the moments between dropping the slabs lock and the end of a rescue, when the item lock and the private copy keep others away, are not interleaved.
- Lifecycle.LruMaintainerBumps: the method works off one buffer by itself; BumpQueue says what holds when other threads act between two entries. Entries are items with hash values; their encoding as 16 bytes in the bip buffer is not modelled, only that lengths are multiples of 16.
- Mover.Rebalance.SlabRebalanceFinish: room in the destination's page list is an assumption, which the source establishes only at the start; PageRoom says when it holds.
- Cache.Cache.MovePage: the same assumption.
- Slabs.Slabs.MovePage: the same assumption.
- Allocation.DoItemAlloc: the slab class is given, and chunked items are absent.
- SlabClass.SlabClass: slab_list is a sequence with a separate length, not an array that is reallocated; cutting a page makes new chunk objects instead of reusing its memory.
- BipBuffer.BipBuf: sizes are natural numbers; negative int arguments and a total beyond 2^31 are not modelled, the unsigned wrap in the comparison of poll is.
