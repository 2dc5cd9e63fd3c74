# SightingDB, modelled and proved

SightingDB counts sightings: how often a *value* was seen in a *namespace*, by
which server, and when. Servers mirror one another in a *galaxy*. This project
models the parts of it where something can quietly go wrong, and proves what
they promise. `dafny verify dfyconfig.toml` checks all of it.

| file | what it models |
|---|---|
| `Text.dfy`, `Sets.dfy`, `Options.dfy` | strings, sorted listings, comma-separated tag sets; small set facts |
| `Namespaces.dfy` | what the server decides from a namespace's name |
| `Attributes.dfy` | the record kept about one value: counters per server, hourly buckets, seen window, tags, expiry; merging a peer's copy |
| `MergeLaws.dfy`, `Retention.dfy` | merging as a join of a set of offers; buckets whatever the arrival order |
| `Galaxy.dfy`, `GalaxyBounds.dfy`, `Agreement.dfy` | servers writing, forwarding, offering and merging, step by step; how far a count can be off; when mirrors agree |
| `Peers.dfy`, `Probing.dfy`, `Forwarding.dfy`, `BulkRead.dfy` | who serves a read and takes a write, by what probes found; where a request gets to and what it costs; batches spread over mirrors |
| `CatchUp.dfy` | walking a peer's namespace page by page |
| `FlatStore.dfy`, `Histories.dfy` | the database as one flat map, and the consensus tally `_all`; what it holds and shows, told from what was done to it |
| `Mirrors.dfy` | a mirror's database as a part of the galaxy |
| `Tiers.dfy` | memory, catalogue, dirty set and files standing for that map |
| `ShardFiles.dfy`, `Directories.dfy` | file names, and the directory they make |
| `Database.dfy`, `Searching.dfy` | the database changed in place, proved against the flat map |
| `DiskTally.dfy`, `StoreRuns.dfy` | whole runs and restarts of it, and the tally on disk |
| `Interleaving.dfy`, `LostWrites.dfy`, `Schedules.dfy` | writers, a save and an eviction taking turns lock by lock; which steps do harm, runs that lose, and what a schedule has to keep apart so that none does |
| `Racing.dfy` | racing first writers |
| `Recency.dfy`, `Latest.dfy` | lists in order of last write; the record of recent writes |

Times are whole seconds, as snapshots and offers carry them; a replacement of
tags is stamped with its own clock. Counters are unbounded. The rendezvous
weight, the digest in a file name, the eviction policy, the ACL, a peer's
answers and the clock are arbitrary functions or parameters.

## Where the code and the plain promise part

Some things one would like to say of the code are false of it. The model keeps
the code as it is, shows an input, and proves exactly when the promise holds.

- *No mirror ever counts more than clients wrote.* A mirror that merges an offer
  already counting a forwarded write, and then receives that write itself,
  counts it twice (`GalaxyRuns.ForwardedWriteCountedTwice`). A merge keeps the
  promise if and only if, for every other server, what the offer counts and what
  is still on its way to the mirror fit into what that server accepted
  (`GalaxyRuns.TakeIsSafeIff`, `GalaxyRuns.TakeStaysHonestIff`); runs that keep
  to this never inflate (`GalaxyRuns.NoInflation`), and it always holds where
  nothing is on its way (`GalaxyBounds.IdleTakeIsFenced`). Whatever happens, a
  count is over by at most a factor of the number of mirrors, which is attained
  (`GalaxyBounds.InflationIsBounded`, `GalaxyBounds.BoundIsAttained`); where
  writes are lost or values dropped it can be under by any amount. What
  clients wrote at a mirror itself is never over-counted
  (`GalaxyBounds.OwnClientsNeverInflated`), and mirrors come to agree all the same
  (`Agreement.MirrorsAgree`).
- *Merging is insensitive to order and repetition.* An offer that brings neither
  a foreign sighting nor a time breaks it for the seen window, because an unseen
  value takes its window from whatever comes next. `MergeLaws.MergesCommuteIff`
  and `MergeLaws.MergeTwiceIff` give the exact conditions.
- *A merge that changes something marks its shard.* What `changed` misses is
  exactly a moved replacement stamp and added zeros
  (`MergeLaws.ReportedChangesShow`); an offer that says nothing even brings a new
  value in unreported (`Databases.NewValueUnreported`). The store stays sound
  after a merge if and only if it was reported, changed nothing, or the shard was
  dirty anyway (`Databases.Database.Merge`). Otherwise an eviction undoes the
  merge and leaves its count behind (`StoreRuns.MergeThenEvict`).
- *A save leaves the files equal to the database.* Giving consensus back does not
  mark the internal shard: write, save everything, delete, save what changed, and
  the files still count what is gone (`StoreRuns.StaleTally`). They equal the
  database if and only if everything was asked for, the internal shard was dirty,
  or its file had `_all` right already (`Databases.Database.Save`). A tally read
  back from them is never too low, and over by an amount that no later run
  changes (`StoreRuns.SaveChangesAndGoOn`, `FlatStore.RunKeepsTally`).
- *Nothing recorded is ever lost.* No lock spans a page-in, a registration, an
  eviction or the start of a save, and seven of the steps they consist of do harm
  at the wrong moment. `Interleaving.StepKeepsIff` says for every step, and
  exactly, when. Nothing is lost in any run that keeps to these rules
  (`Schedules.NothingIsLost`, `Schedules.QuietFilesHoldEverything`), which speak
  of who is in the middle of what, and not of what memory or a file holds:
  - a shard is paged in by one writer at a time, and not while it is evicted.
    Otherwise a second page-in, before the first has called the shard resident,
    overwrites a record already made and marked, leaves a writer recording into
    an orphan, or has a save read one (`LostWrites.RecordOverwritten`,
    `LostWrites.RecordOrphaned`, `LostWrites.OrphanReadLoses`). It does no harm if
    and only if memory still is what the file says and no handle to any of it is
    out (`Interleaving.ReloadKeepsIff`);
  - no shard is evicted in which a writer is between paging in and registering.
    Otherwise everything else in it, or all of it, reads as missing
    (`LostWrites.EvictionBetweenLoses`, `LostWrites.EvictionInsideLoses`,
    `Interleaving.EvictionBetweenIff`, `Interleaving.EvictionInsideIff`);
  - no shard is marked while it is evicted. Otherwise it is left marked and
    absent, and the next save deletes its file as stale
    (`LostWrites.WriteWhileEvictingLoses`, `LostWrites.ClearedMarkLoses`,
    `Interleaving.UnloadKeepsIff`, `Interleaving.UnmarkKeepsIff`);
  - no shard is evicted that a running save has yet to write. Otherwise the save
    writes an empty file (`LostWrites.EvictWhileSavingLoses`);
  - between a save's list of shards and its taking of the dirty set nothing is
    marked and nothing evicted. Otherwise a shard brought in and marked there
    loses its file too (`LostWrites.WriteAfterListLoses`,
    `Interleaving.TakeKeepsIff`).

  Records, releases, the rest of a save, and page-ins, registrations and
  evictions in different shards interleave in any way. A server in which getting a
  handle, starting a save and evicting a shard each went through undisturbed would
  keep to the rules (`Schedules.OneAtATimeRunIsOrderly`); the code does not see to
  it.
- *A catch-up walk misses nothing.* If a value is removed between pages it can
  miss another, whatever the page size (`CatchUp.RemovalHidesAValue`). What it takes
  is exactly the values that stood on page i among the live ones when the i-th
  request was served, for some request up to the last (`CatchUp.TakenIff`); while
  values only arrive that is every value live at the start
  (`CatchUp.CatchUpIsComplete`).
- *The recent-writes record holds the last distinct pairs.* Its index knows a pair by
  one string joined with a NUL, and nothing keeps a NUL out of a namespace: ("a",
  "b\0c") and ("a\0b", "c") share a key, and the second drops the first
  (`LatestWrites.PairsCollide`). The promise holds, for every capacity, if and only
  if no two different pairs written share a key (`LatestWrites.KeepsLastPairsIff`),
  which namespaces free of NUL ensure (`LatestWrites.KeysAreDistinct`,
  `LatestWrites.KeepsLastPairs`).
- *Stopping at the first entry too old is a plain filter.* With a clock that
  steps back it is not (`LatestWrites.ClockSteppedBack`). Every query is answered
  exactly if and only if every entry that an older one follows has enough newer
  entries of its own namespace to be crowded out of a full answer
  (`LatestWrites.EveryQueryIff`). Time order is enough, and for a record that fits
  into one answer nothing less is (`LatestWrites.EveryQueryIffTimeOrder`).

## Model

| member | source | states |
|---|---|---|
| `Text.SplitJoin` | src/attribute.rs:136-142 | Splitting a joined list of labels gives the labels back, so the comma-separated string is a faithful store for them |
| `Text.AddTagsIsUnion` | src/attribute.rs:256-268 | Adding tags is set union, and the stored string changes exactly when a tag is new |
| `Text.CleanTagsSameSet` | src/attribute.rs:409-423 | A replacement stores exactly the set it was given |
| `Text.TrimIs` | src/attribute.rs:136-142 | Trimming takes away exactly the blanks at both ends |
| `Text.TagSetIs` | src/attribute.rs:136-142 | The labels of a string are what is left of its comma-separated parts once trimmed |
| `Text.IncreasingUnique` | src/db.rs:484-485 | A sorted listing is determined by the set it lists, so sorting gives one answer whatever order a map is walked in |
| `Namespaces.ClientNamespaceCounts` | src/db.rs:2048-2077 | Whatever a client may write counts towards consensus |
| `Namespaces.ShadowIsInternal` | src/db.rs:14-20 | Shadow namespaces are internal, live in the internal shard and never count |
| `Namespaces.ShardIs` | src/persistence.rs:46-60 | A namespace lives in the shard of its first segment that is not empty, or in the server's own if that begins with an underscore or there is none |
| `Namespaces.CountsIff` | src/db.rs:2075-2077 | Everything counts towards consensus but `_all` and what has `_shadow` or `_config` for its first segment and another after it |
| `Namespaces.AtOrBelowIff` | src/db.rs:139-155 | A name is at or below a prefix if and only if the prefix's segments are its first ones |
| `Namespaces.HoldsIff` | src/db.rs:139-155 | A server holds its own namespaces, all if it stores everything, and else those at or below one of its prefixes, slashes around the name aside |
| `Attributes.IncrementCounts` | src/attribute.rs:210-226 | One sighting raises the total over all servers by exactly one, whichever server it is counted for |
| `Attributes.DecrementCounts` | src/attribute.rs:234-244 | Giving one back lowers the total by one if this server had any, and touches no other server's entry |
| `Attributes.DecrementUndoesIncrement` | src/attribute.rs:210-244 | Counting and giving back cancel out on every entry |
| `Attributes.HourIs` | src/attribute.rs:441-447 | A sighting's bucket is the multiple of 3600 it is less than an hour after |
| `Attributes.SightedTags` | src/db.rs:398-404 | A write adds its tags to the set, never moves the replacement stamp, and sets an expiry only if it brings one |
| `Attributes.Attribute.Count` | src/attribute.rs:177-179 | The sum over all servers, computed by a loop, is the abstract total |
| `Attributes.Attribute.Increment` | src/attribute.rs:210-226 | In place: window widened or seeded, bucket bumped and trimmed, own entry bumped |
| `Attributes.Attribute.Decrement` | src/attribute.rs:234-244 | In place: own entry lowered or dropped; reports what is left in total |
| `Attributes.Attribute.AddTagsHere` | src/attribute.rs:256-268 | In place: the union of the held tags and the new ones |
| `Attributes.Attribute.SetTags` | src/attribute.rs:409-423 | In place: the tags replaced and the stamp never lowered |
| `Attributes.Attribute.Merge` | src/attribute.rs:313-402 | In place: the whole merge equals the merged record, and what it reports (changed, ignored own entry, count) is characterised exactly |
| `Attributes.MergeStats` | src/attribute.rs:334-345 | The nested loop over servers and hours raises each bucket to the greater, and says exactly whether any rose |
| `Attributes.TrimStats` | src/attribute.rs:459-471 | Dropping the oldest bucket until few enough are left keeps exactly the newest ones, defined by how many are newer |
| `Retention.RetentionKeepsNewest` | src/attribute.rs:441-471 | After any sequence of sightings a server's buckets are exactly the newest distinct hours, with exact hit counts |
| `Retention.WindowIsExact` | src/attribute.rs:210-226 | The window is the minimum and maximum over all sightings and the count their number |
| `Retention.RetentionIgnoresOrder` | src/attribute.rs:210-226 | Sightings in any order leave the identical record |
| `Retention.TrimAgain` | src/attribute.rs:459-471 | Trimming after each sighting loses nothing that trimming once at the end would keep |
| `MergeLaws.MergeAllReachesJoin` | src/attribute.rs:313-402 | Merging a list of offers reaches the least record above the set of them: counts, buckets, expiry, stamp and tag set, by a definition that mentions no order |
| `MergeLaws.MergeIgnoresOrder` | src/attribute.rs:289-402 | Any permutation and repetition of offers, none of them blank, gives the same counts, buckets, window, expiry, stamp and tag set |
| `MergeLaws.AbsorbedOfferChangesNothing` | src/attribute.rs:313-402 | Merging an offer taken before changes nothing and reports no change |
| `MergeLaws.ReportedChangesShow` | src/attribute.rs:313-402 | A merge reports a change if and only if something other than the stamp or a zero entry differs |
| `MergeLaws.MergesCommuteIff` | src/attribute.rs:313-363 | Exactly when two merges may change places |
| `MergeLaws.MergeTwiceIff` | src/attribute.rs:313-363 | Exactly when merging an offer twice equals merging it once |
| `MergeLaws.NonBlankExactlyCommutes` | src/attribute.rs:313-363 | An offer commutes with every offer that brings something, from every record, if and only if it brings something itself |
| `MergeLaws.OwnEntryUntouched` | src/attribute.rs:313-345 | No merge changes this server's own entry or buckets |
| `MergeLaws.MergedTagSet` | src/attribute.rs:367-385 | The later replacement wins; at the same stamp the tag sets are joined |
| `GalaxyRuns.NoInflation` | src/db.rs:1322-1338 | In every fenced run, with stale, repeated and reordered offers, drops and lost writes, no mirror counts more for a server than its clients wrote, nor more in total |
| `GalaxyRuns.TakeIsSafeIff` | src/attribute.rs:313-332 | Taking an offer keeps room for the writes on their way if and only if the offer was fenced |
| `GalaxyRuns.TakeStaysHonestIff` | src/attribute.rs:313-332 | An offer keeps a mirror honest through every later arrival if and only if it was fenced |
| `GalaxyRuns.StaysHonestIff` | src/db.rs:1322-1338 | A mirror's count for a server stays honest through all possible arrivals if and only if count and pending fit into what was accepted |
| `GalaxyRuns.ForwardedWriteCountedTwice` | src/handlers.rs:976-1018 | A run in which one client write is counted twice by a mirror |
| `GalaxyRuns.NothingForwardedStaysSafe` | src/attribute.rs:313-332 | Where clients only talk to mirrors every run is safe, with no condition on offers |
| `GalaxyBounds.InflationIsBounded` | src/handlers.rs:976-1018 | In every run at all, no mirror counts more for a server than its clients' writes times the number of mirrors, nor reports more in total |
| `GalaxyBounds.BoundIsAttained` | src/handlers.rs:976-1018 | For any number of mirrors there is a run in which one client write is counted once for every mirror |
| `GalaxyBounds.OwnClientsNeverInflated` | src/attribute.rs:313-332 | In every run at all, what clients wrote at a mirror is counted at most as often as they wrote it, everywhere |
| `GalaxyBounds.IdleTakeIsFenced` | src/attribute.rs:313-332 | A mirror with nothing on its way to it may take any offer: the fence then holds by itself |
| `Agreement.MirrorsAgree` | src/attribute.rs:277-402 | After any run that dropped nothing, fenced or not, once every mirror has taken from every other an offer made since, all report the same count, per server and in total, and it is the greatest any of them held when the exchange began |
| `Agreement.WindowsAndStampsAgree` | src/attribute.rs:313-402 | If everyone held the value they also agree on the window and on the replacement stamp, the latest there was, whatever stale offers arrive meanwhile |
| `Agreement.RecordsAgree` | src/attribute.rs:277-402 | If moreover only offers made since are taken, they agree on tags and expiry too, and on each server's buckets at all mirrors but itself |
| `GalaxyRuns.Convergence` | src/attribute.rs:277-402 | In a fenced run with nothing dropped or lost and everyone up to date, what they agree on is exactly what clients wrote, per server and in total |
| `GalaxyRuns.RemovedTagStaysRemoved` | src/attribute.rs:367-423 | A tag removed by the latest replacement is in no copy or offer as recent, through every run in which nobody adds it again |
| `Agreement.RemovedTagIsGone` | src/attribute.rs:367-423 | After such a run, with nothing dropped, and an exchange, no mirror carries the tag |
| `GalaxyRuns.TiedRemovalIsUndone` | src/attribute.rs:367-385 | A removal that only ties with another copy's stamp is undone by merging it |
| `Peers.TiesGoToTheLast` | src/galaxy.rs:302-305 | Among equally heavy holders the one configured last reads |
| `Peers.ReaderIsBest` | src/galaxy.rs:241-306 | The reader is a live holder, never one catching up while another is current, none eligible is heavier, and there is none only if nobody is live |
| `Peers.MinimalDisruption` | src/galaxy.rs:241-306 | A change to one peer changes a value's reader only if that peer read it before or reads it now, ties and the everyone-catching-up fallback included |
| `Probing.TargetsIff` | src/galaxy.rs:258-268 | A write is sent to a URL if and only if it is that of an enabled peer storing the namespace whose last probe, if there was one, did not fail |
| `Probing.ReaderIs` | src/galaxy.rs:241-306 | After any probes the reader is the heaviest of the enabled peers storing the namespace that were not found down or catching up, or of those not found down when there is no other; nobody only if all were found down |
| `Probing.AllUpHeaviestReads` | src/galaxy.rs:241-306 | With every peer found up and up to date, the heaviest of all enabled holders reads |
| `Probing.DownIsLeftAlone` | src/galaxy.rs:258-268 | A peer whose last probe failed reads nothing and is sent nothing |
| `Probing.AnyHolderIff` | src/galaxy.rs:591-613 | A namespace has a holder exactly when an enabled peer stores it, whatever the probes found |
| `Probing.ResolvedReader` | src/galaxy.rs:591-613 | A read is sent to that reader's URL |
| `Peers.CleanUrlIs` | src/galaxy.rs:649-660 | A peer's URL is kept without the blanks around it and the slashes after it |
| `Peers.UsableUrlIs` | src/galaxy.rs:656-672 | Any host after either scheme makes a usable URL, and neither a host nor a scheme alone does |
| `Peers.PeerTable.RecordProbe` | src/galaxy.rs:326-363 | A probe's outcome is recorded and touches no other peer |
| `Peers.PeerTable.AddPeer` | src/galaxy.rs:649-695 | Exactly when a peer is refused, already there or added, and that nothing else moves |
| `Peers.PeerTable.RemovePeer` | src/galaxy.rs:702-716 | The peer and its health go, the order of the others stays |
| `Peers.PeerTable.SetEnabled` | src/galaxy.rs:727-740 | One peer's switch is set in its place and its health forgotten |
| `Peers.PeerTable.UpdatePeer` | src/galaxy.rs:743-761 | One peer is replaced in its own place in the order, or nothing happens |
| `Forwarding.ResolvedAgree` | src/galaxy.rs:591-613 | A read has somewhere to go exactly when a write does, and goes to one of the write's targets |
| `Forwarding.ReadTerminates` | src/galaxy.rs:446-454 | With any wiring at every hop, a read is forwarded at most its budget, ends at a server that handles it, a failure or 508, and at 508 only with the budget spent |
| `Forwarding.LoopSpendsWholeBudget` | src/galaxy.rs:548-550 | Where everyone forwards, at every hop, a read circulates for exactly the whole budget |
| `Forwarding.WriteTerminates` | src/galaxy.rs:880-924 | With any wiring at every hop, a write with fan-out d and h hops causes at most d + d^2 + ... + d^h forwards, and every path ends properly |
| `Forwarding.WriteBoundIsMet` | src/galaxy.rs:880-924 | That bound is reached in a regular wiring that nobody stores |
| `Forwarding.WriteEndsIff` | src/galaxy.rs:880-924 | A write has an ending if and only if it gets to a place where it ends so, by a relation on the wiring alone: every server that does not store the namespace, knows a holder and has a hop left passes it to every live holder |
| `Forwarding.WriteReachesHolders` | src/handlers.rs:970-1018 | So each live holder is sent the write: one that is there and stores the namespace takes it, one that is gone is reported |
| `Forwarding.WriteToHolders` | src/galaxy.rs:905-918 | Where all holders are there and store it, a write costs one forward each and ends with them, in order |
| `Forwarding.ReadFollows` | src/galaxy.rs:529-589 | A read that gets, from reader to reader, to a place where it ends, ends there, after as many forwards as it took |
| `Forwarding.ReadLeads` | src/galaxy.rs:529-589 | And there always is such a place |
| `Forwarding.ReadReachesReader` | src/galaxy.rs:529-589 | A read passed on to a reader that is there and stores the namespace is answered by it |
| `BulkRead.DoReadBulk` | src/handlers.rs:1786-1934 | The batch is answered in request order: read here by a server outside any galaxy, one that holds the namespace, or for its own namespaces; otherwise refused for want of hops or a holder, or what the mirror named for the item sent back in the item's place; and a mirror is sent only what it was named for |
| `BulkRead.Scatter` | src/handlers.rs:1802-1858 | Every item is answered at once or grouped, with the shadow sightings it owes |
| `BulkRead.Gather` | src/handlers.rs:1866-1921 | A mirror's answers land on exactly its items' positions and nowhere else |
| `BulkRead.GroupsPartition` | src/handlers.rs:1804-1858 | Each forwarded item is in the one group of its mirror, once and in order |
| `BulkRead.RefinesSingleReads` | src/handlers.rs:1786-1934 | If mirrors answer items independently, a bulk answer is what single reads would have given |
| `BulkRead.ShadowsAre` | src/handlers.rs:1836-1846 | A search is noted here if and only if it was sent on and did not ask to leave no shadow |
| `CatchUp.MergePage` | src/db.rs:482-520 | A page is a slice of the sorted live values with their offers, and the total is how many are live |
| `CatchUp.PullNamespace` | src/galaxy.rs:1743-1805 | The loop merges exactly the offers of the walk, in order, until the peer has no more or a request fails, and counts those that changed something |
| `CatchUp.SteadyValueIsTaken` | src/galaxy.rs:1743-1805 | A value live throughout, with never fewer live values before it, is taken by every walk that stops for want of more |
| `CatchUp.CatchUpIsComplete` | src/galaxy.rs:1743-1805 | With values only arriving between pages, anywhere in the order, a walk that stops for want of more has taken every value live at the start |
| `CatchUp.UnchangingWalk` | src/galaxy.rs:1743-1805 | Over an unchanging set of values the walk ends by itself and visits each exactly once, in order |
| `CatchUp.CatchUpBringsCounts` | src/galaxy.rs:1786-1792 | Afterwards every such value is here, counting for each other server at least what the peer counted throughout |
| `Histories.WalkMerges` | src/galaxy.rs:1786-1792 | After a walk each value here is as if exactly what was taken about it had been merged, in order |
| `Histories.WalkReports` | src/galaxy.rs:1786-1792 | The walk reports as many changes as merges that made a difference anyone can see |
| `CatchUp.FinishedEnds` | src/galaxy.rs:1794-1797 | Every walk that finishes has one request it finishes with |
| `CatchUp.TakenIff` | src/galaxy.rs:1743-1805 | A walk that ends at request `last` takes a value if and only if, for some request i up to it, the value was live then with at least i full pages of live values before it and fewer than i + 1 |
| `CatchUp.MissedHasSlipped` | src/galaxy.rs:1794-1797 | A value live throughout that is missed has had values before it disappear |
| `CatchUp.SlippedYetTaken` | src/galaxy.rs:1794-1797 | Standing before the offset at an earlier request is not enough: arrivals can push a value back into a page |
| `CatchUp.RemovalHidesAValue` | src/galaxy.rs:1794-1797 | For every page size there is a namespace in which one removal between pages hides a value live throughout, and the walk still ends as complete |
| `CatchUp.PageLimit` | src/handlers.rs:225-229 | A page holds what was asked for, 500 if nothing was, at least 1 and at most 5000 |
| `CatchUp.PlaceIsRank` | src/db.rs:482-485 | A value's place in the listing is how many live values sort before it |
| `FlatStore.WrittenKeepsTally` | src/db.rs:879-913 | An accepted write keeps `_all` equal to the number of namespaces holding each value, or over it by as much as before |
| `FlatStore.MergedInKeepsTally` | src/db.rs:924-935 | So does a merge, which counts a namespace exactly when it brings the value in |
| `FlatStore.RetaggedInKeepsTally` | src/db.rs:983-992 | So does replacing tags, even those of `_all` |
| `FlatStore.DeclaredKeepsTally` | src/db.rs:1393-1402 | So does declaring a namespace |
| `FlatStore.DeletedKeepsTally` | src/db.rs:1066-1103 | So does deleting one: each of its values gives back one count and no entry is left at zero |
| `FlatStore.SweptKeepsTally` | src/db.rs:1105-1146 | So does a sweep of any namespaces in any order, pruning included |
| `FlatStore.SweptEachAt` | src/db.rs:1105-1146 | Outside `_all` a sweep takes exactly the expired values of the namespaces it visits, in whatever order |
| `FlatStore.EmptiedHadExpired` | src/db.rs:1118-1146 | Outside `_all`, a sweep reclaims only namespaces that held something and nothing but expired values |
| `FlatStore.RunKeepsTally` | src/db.rs:626-638 | Through every run `_all` stays over by exactly what it was over by, value by value: exact stays exact |
| `FlatStore.TallyIsExact` | src/db.rs:902-906 | After every run of writes, merges, retags, declarations, deletes and sweeps, `_all` is the exact count and has no entry exactly when there is none |
| `Histories.WriteLands` | src/db.rs:888-913 | A write adds one under the server it came from and nobody else, widens the window to its time or starts it, takes its expiry or the shadow policy's, and touches no other value outside `_all` |
| `Histories.NewValueCounts` | src/db.rs:898-906 | It is counted in `_all`, for this server and as of its time, if and only if the value was new to its namespace and consensus was asked for |
| `Histories.WriteHits` | src/attribute.rs:441-447 | The clock hour it falls in gains one hit for the server it came from |
| `Histories.RecordTellsHistory` | src/db.rs:398-427 | After any writes by any servers to a value that was not there, the record counts each server's writes, spans the first to the last and has the last expiry given |
| `Histories.TagsTellHistory` | src/db.rs:398-427 | And carries every tag that ever came |
| `Histories.ShownIff` | src/attribute.rs:426-438 | After any such writes the value is shown if and only if its last expiry, counted from its latest sighting, has not passed, or it has none |
| `Histories.WriteIsShown` | src/attribute.rs:426-438 | Whatever was there before, a write that brings an expiry is shown until then |
| `Histories.RetagLands` | src/db.rs:983-992 | A replacement of tags, for a value that is shown, sets the tags and raises the stamp to the later of the two, and changes nothing else |
| `Histories.MergeLands` | src/db.rs:924-935 | A merge joins the offer to what was there: each server's entry the greater of the two, this server's own as it was, and no other value touched outside `_all` |
| `Histories.DeclareLands` | src/db.rs:1393-1402 | A declared namespace is there, empty if it was new, and no other moves |
| `Histories.DeleteLands` | src/db.rs:1066-1103 | A deleted namespace is gone and no other but `_all` is touched |
| `Histories.SweepLands` | src/db.rs:1105-1146 | A sweep takes exactly what is not shown any more from the namespaces it visits, the configuration aside |
| `Histories.SweepReports` | src/db.rs:1105-1146 | It reports as many values as it took |
| `Histories.EmptiedIff` | src/db.rs:1118-1146 | And reclaims a namespace if and only if it had values and none of them is shown any more |
| `Histories.ListedIsShown` | src/db.rs:482-485 | A page lists exactly what is shown |
| `Histories.PermittedIs` | src/db.rs:1511-1576 | A search lists exactly the namespaces that show the value, may be read, and are neither `_all` nor shadow nor configuration |
| `Mirrors.WriteIsStep` | src/db.rs:1322-1338 | A write to a mirror's database is the galaxy's local step, or its delivery if it came from another server |
| `Mirrors.MergeIsStep` | src/db.rs:924-935 | Merging an offer into the database is the galaxy's taking of it |
| `Mirrors.RetagIsStep` | src/db.rs:983-992 | Replacing tags is the galaxy's step of that name |
| `Mirrors.DeleteIsStep` | src/db.rs:1066-1103 | Deleting the namespace drops the mirror's copy |
| `Mirrors.OfferIsStored` | src/attribute.rs:277-287 | What a mirror offers is what its database holds |
| `Tiers.PageInKeeps` | src/db.rs:1758-1803 | Paging a shard in keeps the invariant and changes nothing anyone can see |
| `Tiers.DropKeeps` | src/db.rs:1866-1902 | Dropping a clean shard from memory changes nothing anyone can see |
| `Tiers.StoreKeeps` | src/db.rs:1985-2022 | Storing under a name is one update of the flat map and leaves at most its own shard behind its file |
| `Tiers.RemoveKeeps` | src/db.rs:1076-1091 | Removing a name is one removal from the flat map |
| `Tiers.WriteFileKeeps` | src/persistence.rs:157-185 | Writing a shard's file makes it agree with memory and changes nothing else |
| `Tiers.RemoveFileKeeps` | src/persistence.rs:146-152 | Removing an emptied shard's file is safe |
| `Tiers.LookIsCatalogued` | src/db.rs:1957-1983 | A name is found, in memory or through a page-in, exactly when it is catalogued |
| `Tiers.UnmarkedIff` | src/db.rs:928-933 | An unmarked change leaves the store sound exactly when it was none or the shard was dirty |
| `Tiers.BootedIsSound` | src/db.rs:798-835 | A database started from files is sound and stands for exactly what they hold |
| `Tiers.FilesHoldAllButTally` | src/db.rs:1904-1908 | With nothing dirty the files hold the whole flat map, apart from what `_all` says |
| `Tiers.FilesHoldEverythingIff` | src/db.rs:1904-1908 | With nothing dirty the files hold all of it if and only if they have `_all` as it stands |
| `Tiers.SaveIsExactIff` | src/persistence.rs:111-131 | A save leaves files equal to the flat map if and only if it was asked for everything, found the internal shard dirty, or its file had `_all` right already |
| `Tiers.DropUndoes` | src/db.rs:1866-1902 | Dropping a shard whose changes were never marked undoes exactly those changes |
| `ShardFiles.ShardFile` | src/persistence.rs:69-94 | The loops build exactly the file name the encoding defines |
| `ShardFiles.EncodedInjective` | src/persistence.rs:76-86 | The percent-encoding over UTF-8 bytes tells any two names apart |
| `ShardFiles.DecodesBack` | src/persistence.rs:76-86 | Reading two hexadecimal digits after each percent sign, the high one first, gives the name's UTF-8 bytes |
| `ShardFiles.Utf8Decodes` | src/persistence.rs:80-84 | Those bytes stand for the character, as section 3 of RFC 3629 reads them |
| `ShardFiles.PlainStays` | src/persistence.rs:76-79 | A name of ASCII letters, digits, dots, dashes and underscores is its own encoding |
| `ShardFiles.EncodedIsPlain` | src/persistence.rs:76-86 | Every encoding is made of those and percent signs |
| `ShardFiles.FileNameIs` | src/persistence.rs:69-94 | A short plain name is found in its file's name as it is, and no file's name is longer than 98 characters |
| `ShardFiles.NeverTheInternalFile` | src/persistence.rs:70-74 | No user shard is written over the internal file, whatever its name or hash |
| `ShardFiles.SameFileIff` | src/persistence.rs:87-93 | Two user shards share a file exactly when truncated encodings and hashes both agree |
| `ShardFiles.FileNameInjective` | src/persistence.rs:69-94 | Shards whose encoding fits in 80 bytes each have a file of their own, whatever the hash |
| `ShardFiles.FileNamesTellApart` | src/persistence.rs:69-94 | Shards that fit are told apart by their file names, whatever the hash |
| `ShardFiles.WriteFile` | src/persistence.rs:157-185 | So writing one shard's file is updating a map at that shard alone |
| `ShardFiles.RemoveFile` | src/persistence.rs:146-152 | And deleting one drops that shard alone |
| `Directories.ReadShardFile` | src/persistence.rs:312-323 | Reading a shard's file by its name gives what was stored for that shard, and nothing if there is none |
| `Directories.LoadFrom` | src/persistence.rs:250-264 | Reading every file of the directory, in any order, gives each namespace from its shard's file |
| `Directories.SaveInto` | src/persistence.rs:107-155 | A save by file names keeps the directory holding exactly the shards' contents, for shards whose names fit |
| `Directories.SaveAndRestartFrom` | src/persistence.rs:107-273 | A full save into the directory, read back by name, gives exactly the database, and so does a restart from it |
| `Databases.Database.constructor` | src/db.rs:758-775 | An empty database is sound, holds nothing and has an exact tally |
| `Databases.Database.Restart` | src/db.rs:798-835 | A database started from any files holds each name they hold, as one of them has it; from files as this store writes them it is sound and holds exactly what they do |
| `Databases.Database.PageIn` | src/db.rs:1758-1803 | In place: the shard is in memory and the flat map unchanged |
| `Databases.Database.Open` | src/db.rs:1957-1974 | Finds a namespace exactly when the flat map has it, paging in where needed, and changes nothing |
| `Databases.Database.OpenOrCreate` | src/db.rs:1993-2022 | The namespace is there afterwards, as it was or new, with the rest of an evicted shard brought back first |
| `Databases.Database.RecordWrite` | src/db.rs:879-913 | A write acts on the tiers as on the flat map, tally included, reports count and novelty exactly, and marks exactly the shards it changed |
| `Databases.Database.Merge` | src/db.rs:924-935 | A merge acts as on the flat map, and keeps the store sound if and only if it was reported, changed nothing, the shard was dirty, or it was into an existing `_all` |
| `Databases.NewValueUnreported` | src/db.rs:924-935 | An offer that says nothing brings a new value in without reporting a change |
| `Databases.Database.SetTags` | src/db.rs:983-992 | Retagging acts as on the flat map and succeeds exactly for a live value |
| `Databases.Database.View` | src/db.rs:994-1003 | A read sees exactly the unexpired record of the flat map and changes nothing |
| `Databases.Database.CreateNamespace` | src/db.rs:1393-1402 | Declares exactly what is not there yet, resident or evicted |
| `Databases.Database.Delete` | src/db.rs:1066-1103 | Deleting acts as on the flat map, giving consensus back value by value |
| `Databases.Database.Sweep` | src/db.rs:1105-1146 | A sweep removes exactly the expired values of resident namespaces and the namespaces it emptied, and reports how many |
| `Databases.SweepIsInvisible` | src/db.rs:533-546 | No reader can tell whether, or in what order, a sweep has happened |
| `Databases.Database.EvictIdle` | src/db.rs:1809-1864 | Dirty shards are written first, exactly the shards that were resident and may go leave memory, and the contents stay the same |
| `Databases.Database.Save` | src/persistence.rs:107-155 | A save changes nothing anyone can see, leaves nothing dirty and exactly the files it should; they equal the database if and only if everything was asked for, the internal shard was dirty, or its file had `_all` right |
| `Databases.Load` | src/persistence.rs:228-273 | Reading every shard, in any order, gives every name in any file, as some file has it |
| `Databases.BuildCatalogue` | src/db.rs:810-819 | The loop over names builds the catalogue of what was loaded |
| `Databases.SaveAndRestart` | src/persistence.rs:107-273 | A full save and a restart give back exactly the database, evicted shards and deletions included |
| `Databases.SaveChangesAndRestart` | src/persistence.rs:107-273 | After a save of what changed everything but the contents of `_all` comes back exactly, and `_all` does if and only if the internal shard was dirty or its file had it right |
| `Databases.Database.SightingsOf` | src/db.rs:1511-1576 | Given a tally that is never under, the search that stops early returns exactly the permitted namespaces where the value is live, sorted, and says truncated if and only if there are more than the limit |
| `Searching.SearchEnd` | src/db.rs:1544-1550 | Having found as many as are counted, a search has found everything, wherever else it might have looked |
| `DiskTally.NoNewHolder` | src/db.rs:902-906 | Only an operation that counts up in `_all` gives a value a namespace it did not have |
| `DiskTally.RestartedTally` | src/db.rs:1904-1908 | What a restart reads from files that cover the tally is a tally, over by a fixed excess for each value |
| `StoreRuns.PerformAll` | src/db.rs:1758-2022 | Every run of writes, merges, retags, declarations, deletes, sweeps, reads, evictions and saves equals the same run on a flat map without the last three and keeps the tally as exact as it was, up to the first merge that silently changes a clean shard, if there is one |
| `StoreRuns.RunSaveRestart` | src/persistence.rs:107-273 | From empty, through any such run, a full save and a restart, the flat map of the run comes back with an exact tally |
| `StoreRuns.SaveChangesAndGoOn` | src/persistence.rs:107-273 | After any such run, a save of what changed and a restart, `_all` is never below the number of namespaces holding a value, and runs and searches go on from there |
| `StoreRuns.StaleTally` | src/db.rs:1904-1908 | For every namespace and value: a write, a full save, a delete and a save of what changed leave files that differ from the database |
| `StoreRuns.DeleteSaved` | src/db.rs:1904-1908 | So does any delete that moves the tally of a saved database |
| `StoreRuns.MergeThenEvict` | src/db.rs:924-935 | A merge that brings a value in unreported, followed by an eviction, leaves the database as it was but for a count in `_all` that is one too high |
| `Interleaving.StepKeepsIff` | src/db.rs:1758-2034 | Every step of a writer, a save or an eviction, one per hold of the locks, keeps the tiers standing for what was recorded if and only if it is harmless, a condition on the state before it; thirteen of the twenty kinds always are |
| `Schedules.NothingIsLost` | src/db.rs:879-913 | In every run from any sound database in which each step keeps to rules about who is in the middle of what, the tiers hold exactly what was recorded; a resident shard that differs from its file is dirty, owed by the save, or held by a writer yet to mark it |
| `Schedules.QuietFilesHoldEverything` | src/persistence.rs:107-155 | Once all is quiet and clean after such a run, the files alone hold every sighting recorded in it |
| `Schedules.OrderlyIsHarmless` | src/db.rs:1758-2034 | Where the rules have been kept so far, a step that keeps to them is harmless |
| `Schedules.TidyStep` | src/db.rs:1758-2034 | And leaves the rules kept: whoever paged a shard in finds it there, a shard not yet called resident has someone about to do so, an eviction has its shard to itself, a save's list holds until the dirty set is taken, and it holds what it has yet to read |
| `Schedules.OneAtATimeRunIsOrderly` | src/main.rs:744-801 | A run in which getting a handle, starting a save and evicting a shard each go through undisturbed, with records, marks, releases and the rest of a save in any order in between, keeps to the rules |
| `Interleaving.HarmlessRunLosesNothing` | src/db.rs:879-913 | The same of every run of harmless steps |
| `Interleaving.HarmlessRunFilesEverything` | src/persistence.rs:107-155 | And of its files once all is quiet and clean |
| `Interleaving.ReloadKeepsIff` | src/db.rs:1758-1803 | Reading a shard's file over what a page-in already put into memory is harmless if and only if memory is what the file says and no handle to any of it is out |
| `Interleaving.FlagKeepsIff` | src/db.rs:1793-1799 | Calling a shard resident after a page-in is harmless if and only if it still is in memory or held nothing |
| `Interleaving.RegisterKeepsIff` | src/db.rs:1993-2034 | Registering a name is harmless if and only if its shard is still in memory or held nothing that could be missed |
| `Interleaving.TakeKeepsIff` | src/persistence.rs:111-112 | Taking the dirty set is harmless if and only if no shard marked since the list was made has anything in it, unless a writer will mark it again, and none to be written has been evicted |
| `Interleaving.SerialiseKeepsIff` | src/db.rs:2122-2163 | What a save reads of a namespace, value by value and from objects it holds, is harmless if and only if it is what memory has or its not being so has been noticed |
| `Interleaving.FinishShardKeeps` | src/persistence.rs:157-185 | A file written from namespaces read at different moments is as new as memory, or its being behind has been noticed |
| `Interleaving.UnmarkKeepsIff` | src/db.rs:1850-1853 | Clearing a shard's mark in an eviction is harmless if and only if the mark said nothing that the file, a writer or the running save does not know |
| `Interleaving.UnloadKeepsIff` | src/db.rs:1865-1902 | Dropping a shard is harmless if and only if it is refused, or nobody has marked it again and no running save owes it a write |
| `Interleaving.PageInInOneGo` | src/db.rs:1758-1803 | A page-in with nothing in between is harmless |
| `Interleaving.EvictionInOneGo` | src/db.rs:1836-1902 | So is an eviction, refused or not, of a shard no running save owes a write |
| `Interleaving.SaveBegunInOneGo` | src/persistence.rs:107-112 | So is the start of a save |
| `Interleaving.EvictionBetweenIff` | src/db.rs:1993-2034 | Exactly which evictions must not fall between a page-in and the registration it was for |
| `Interleaving.EvictionInsideIff` | src/db.rs:1758-1803 | And between the two halves of a page-in: those that drop anything |
| `LostWrites.RecordOverwritten` | src/db.rs:1758-1803 | From any database with an evicted shard there is a run in which a record made and marked is overwritten by a second page-in |
| `LostWrites.RecordOrphaned` | src/db.rs:1758-1803 | And one in which a record goes into an object a second page-in has replaced |
| `LostWrites.EvictionBetweenLoses` | src/db.rs:1993-2034 | From any database with an evicted shard that holds anything there is a run in which an eviction between page-in and registration makes it read as missing |
| `LostWrites.EvictionInsideLoses` | src/db.rs:1758-1803 | And one in which an eviction between the two halves of a page-in makes all of the shard read as missing |
| `LostWrites.OrphanReadLoses` | src/db.rs:2122-2163 | Whenever a save has begun a shard of one namespace that a page-in has yet to call resident, a second page-in, a write and an eviction as far as clearing the mark make the save write an old file, and leave the shard unmarked |
| `LostWrites.WriteWhileEvictingLoses` | src/db.rs:1836-1902 | From any database one write while its shard is evicted, followed by a save, loses every name of the shard, file included |
| `LostWrites.ClearedMarkLoses` | src/db.rs:1836-1902 | Whatever changed after an eviction read its shard reads as the file has it once the mark is cleared and the shard dropped |
| `LostWrites.MarkedDropLoses` | src/persistence.rs:147-152 | Whenever a marked shard is dropped, the next save can remove its file and with it every name of the shard |
| `LostWrites.OwedDropLoses` | src/persistence.rs:115-133 | Whenever a shard a save has yet to write is dropped, the save can write an empty file over it |
| `LostWrites.EvictWhileSavingLoses` | src/persistence.rs:107-155 | From any database with a marked shard there is such a run |
| `LostWrites.LateMarkLoses` | src/persistence.rs:111-112 | Whenever a shard is marked after the list was made without being on it, the save removes its file and leaves it unmarked |
| `LostWrites.WriteAfterListLoses` | src/persistence.rs:107-155 | From any database with an evicted shard there is such a run |
| `Racing.OneFirstWriter` | src/db.rs:379-427 | However writers interleave, shadow ones included, one per new namespace and value is told it is new and none otherwise, and every recorded sighting is counted |
| `Racing.QuietTallyIsExact` | src/db.rs:898-906 | Once all are done every sighting is counted and `_all` is the number of namespaces that count |
| `LatestWrites.KeysAreDistinct` | src/latest.rs:63-71 | Joined with a NUL, two pairs whose namespaces hold none share a key only if they are the same pair |
| `LatestWrites.KeepsLastPairsIff` | src/latest.rs:80-98 | The record holds the last distinct pairs of a run of writes, for every capacity, if and only if no two different pairs written share a joined key |
| `LatestWrites.KeepsLastPairs` | src/latest.rs:63-98 | So it does where no namespace holds a NUL |
| `LatestWrites.PairsCollide` | src/latest.rs:63-71 | Two different pairs that share a key: the second write drops the first though there is room for both |
| `Recency.KeepsLastIff` | src/latest.rs:80-98 | The same for any things told apart by any key |
| `Recency.KeepsLastDistinct` | src/latest.rs:80-98 | After any run of writes the record is exactly the last distinct keys that fit, in order of last write, against a definition that looks at the whole history |
| `Recency.KeepsLastDistinctFrom` | src/latest.rs:80-98 | The same from any record already there |
| `Recency.LastWritesAre` | src/latest.rs:16-20 | That definition holds every key written, as it was last written |
| `Recency.RestoreRoundTrip` | src/latest.rs:246-254 | Restoring a saved record gives it back, less what a smaller capacity cuts off |
| `LatestWrites.EarlyStopIff` | src/latest.rs:188-223 | Stopping at the first entry too old loses nothing exactly when the answer is full or nothing earlier was asked for |
| `LatestWrites.EarlyStopIsExact` | src/latest.rs:207-210 | With arrivals in time order it is the plain filter |
| `LatestWrites.AskedForIff` | src/latest.rs:121-128 | A query asks for what was written since, at or below its prefix, in namespaces it may see |
| `LatestWrites.MatchesAre` | src/latest.rs:188-223 | The plain filter lists all of that, the newest first |
| `LatestWrites.AnswerIs` | src/latest.rs:188-223 | An answer is the beginning of that list, as long as was asked for and at most a thousand |
| `LatestWrites.EveryQueryIff` | src/latest.rs:188-223 | Every query is answered exactly if and only if each entry an older one follows has, after the place a query from its own time looks back to, a full answer's worth of entries of its namespace |
| `LatestWrites.EveryQueryIffTimeOrder` | src/latest.rs:207-210 | Time order is enough for every query to be answered exactly, and for a record that fits into one answer nothing less is |
| `LatestWrites.ClockSteppedBack` | src/latest.rs:207-210 | With a clock that stepped back it is not |
| `LatestWrites.PushedKeepsTime` | src/latest.rs:150-165 | Writes arriving in time order keep the record in time order |
| `LatestWrites.Latest.Push` | src/latest.rs:80-88 | In place, keyed by the joined string: the two indexes stay inverse, the key moves to the end, the oldest go |
| `LatestWrites.Latest.SetCapacity` | src/latest.rs:135-143 | Shrinking drops the oldest and marks the record if anything went |
| `LatestWrites.Latest.RecordAt` | src/latest.rs:150-165 | Recorded unless switched off or internal |
| `LatestWrites.Latest.ForgetNamespace` | src/latest.rs:169-184 | Exactly that namespace's entries go, the rest keep their order |
| `LatestWrites.OutsideHolds` | src/latest.rs:169-184 | What forgetting leaves is exactly the entries of other namespaces |
| `LatestWrites.Latest.Recent` | src/latest.rs:188-223 | The loop with its ACL cache and two early exits is the early-stop filter |
| `LatestWrites.Latest.TakeSnapshot` | src/latest.rs:227-234 | The contents, if changed or forced |
| `LatestWrites.Latest.Restore` | src/latest.rs:246-254 | The same as replaying what was saved and then what came since startup |

## Left out

- HTTP, TLS, JSON and serde shapes, zstd, temporary files and renames, signals, logging: input and output.
- Failed file reads and writes, and a save that fails midway, which loses the dirty flags of shards it had not reached.
- Deletes and sweeps racing a first write, which can leave the tally high; they are whole operations here.
- Schedules.NothingIsLost: asks that the rules be kept, because without them the statement is false of the code; a writer applies any change whatever to its namespace, which covers every write, but merges that report no change and so mark nothing are not among its steps.
- In `Interleaving` an eviction's whole read of its shard is one step, of which anything may come; a save and an eviction writing one shard's temporary file at once is not modelled; and there is one save and one eviction at a time, as there is one thread for each.
- Databases.Database.Merge: the store is not promised sound after an unreported change, because the code does not mark the shard then.
- StoreRuns.PerformAll: says nothing of what follows a merge that silently changed a clean shard, because the store is not sound from there on.
- GalaxyRuns.NoInflation: asks that merges be fenced, because without that the statement is false of the code; a forwarded write reaches a mirror at most once, so cascades that deliver it twice are not modelled.
- GalaxyRuns.Convergence: asks for the fence only to say what the common count is; that there is one needs no fence.
- Agreement.RecordsAgree: leaves out a server's own buckets, which its retention may have trimmed and a merge never restores; and takes only offers made since, because a stale one can bring back a tag or an expiry its maker has replaced.
- Databases.Load: where two files hold one name it says that one of them is taken, and not that it is the last in order of file name; no directory the server writes has such files.
- Databases.Database.Restart: the same of the database started from them.
- Directories.SaveAndRestartFrom: asks that every shard's encoded name fit into 80 bytes, because longer ones may share a file.
- Peers.PeerTable.constructor: asks for distinct URLs; a configuration naming one twice is not modelled.
- `set_consensus` and the survey a router rebuilds its tally from: it surveys peers only and is no part of one server's own tally.
- Node id changes, `migrate` and single-file snapshots of older versions.
- Overflow of 64-bit counters, timestamps outside the calendar's range, lock poisoning.
- The value's own name inside a record, the latency, version and failure counters of a probe, and whether `sightings_of` says it paged anything in: only shown.
- The tier policy, the ACL, the rendezvous weight and the digest: arbitrary functions.
- Whether a URL is this server's own address: a parameter of `AddPeer`.
- The `behind_on` count heuristic; only the full walk is modelled.
- STIX export, key and tier gossip, drift reports, the management interface, activity counts, rejections, configuration and the namespace listings: nothing in them is as hard as what is here.
