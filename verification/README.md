# Regionless KV, modelled and verified

Regionless KV is a versioned, replicated key-value store. This project models four of its parts in
Dafny and proves what they guarantee over every input, every history and every interleaving, and how
they compose.

| part | files | main theorems |
|---|---|---|
| the MVCC index of a key and of all keys | `Revisions`, `KeyStates`, `KeyIndexes`, `Histories`, `Refinement`, `SinceRefinement`, `SinceOrder`, `KeyIndexLaws`, `TreeIndexes`, `CountedRuns`, `RevisionBytes` | get refines a plain log exactly on the well-ordered histories; since gives its documented answer exactly for proper numbers and, where these are distinct, ordered generations; numbers from the counter are proper |
| the create and read protocol | `Protocol`, `ProtocolInvariant`, `ProtocolSteps`, `CallOrders`, `Linearizability`, `Draws`, `PutOrder`, `SharedRevisions`, `AsyncStores`, `Continuations`, `Overlaps`, `StaleCreates` | every run with distinct revisions reads like a register; ordering by revision explains conditional creates exactly when each is next after what it assumed; without conditions, a run is safe to finish in every way exactly when creates of different keys never draw at the same time, so runs on one key always are linearizable |
| chain replication | `Chains`, `ChainNodes` | the prefix invariant holds in every run exactly when writes to a key agree |
| placement | `Mixing`, `RendezvousHashing`, `RingHashing`, `Configurations`, `Zones`, `Placements`, `NodeLists` | the 64-bit mixer is a bijection; one owner for all orders exactly without ties; placement succeeds exactly when there are enough zones and remote stores, and then gives them |
| the whole | `EndToEnd` | from a configuration on: what the index shows is on LocalCount stores in as many zones, and on RemoteCount others once their puts have happened |

`Bytes`, `Options`, `Sequences` and `Division` hold shared definitions. `dafny verify dfyconfig.toml` checks everything.

## How the source is modelled

- **Key index.** `KeyIndexes.KeyIndex` is the mutable object with the source's loops. Each method is
  proved equal to a function on values (`KeyStates`), and the laws are proved of those functions. The
  number that a put draws from the global counter for an empty generation is the parameter `draw`.
- **Log.** A history is any sequence of put, update and tombstone calls with revisions in any order. Its
  log keeps the accepted ones. `NewestAt` is the reference: the newest entry at or before a revision.
- **Well-ordered histories.** A stale put always lands in the last generation, even when it is older than
  the tombstone before it. The refinement of get therefore needs each put to be newer than the last
  tombstone, and each tombstone newer than everything. With distinct main numbers this condition is
  necessary as well: any other history makes get disagree with the log at some revision.
- **Protocol.** Incrementing the counter, loading it, each put on a store, publishing, looking up and
  fetching are separate steps of any number of clients. Puts on stores may fail, which the source only records.
- **Linearizability.** The sequential object is a register with its value and revision. A read returns both.
  A conditional create succeeds when the register has the revision that it assumed and is refused on any
  other. `IsRegister` asks an order in real time to explain the reads, `Linearizable` the conditions as well.
  The code does not give the second in general: the index compares the assumed revision with the newest one
  published, while an older create with a number in between may be published later (`StaleCreates`).
- **Chain.** The state machine has any number of writes in flight; the linked classes are one call at a time.
- **Placement.** xxhash is an arbitrary function of the name; `xorshiftMult64` is exact 64-bit arithmetic.
  Latencies are inputs. Zones are visited in an arbitrary order, as Go's map iteration does.

Assumptions:

- Each index call is one atomic step. `treeIndex.Update` mutates under a read lock only
  (`pkg/index/index.go:211-212`), so the lock does not give this.
- `GetGlobalIncreasingRevision` increments and then reads in a second step (`pkg/revision/revision.go:8-9`).
  Creates are modelled that way. Distinct revisions are a hypothesis only where conditional creates are explained;
  `Apart`, that no two creates are between the two steps at once, implies them. Without conditions it is enough, and
  needed, that no two creates of different keys are (`SharedRevisions`, `Overlaps`). The draw inside a put that opens a
  generation is one step of the protocol; in `CountedRuns` others may increment between its two halves.
- Where creates of one key share a number, the first sync store of a revision is listed once among its stores. Every
  placement from a configuration is of this kind (`ServerLists`).
- A put on a store that fails leaves the store unchanged.
- A read of a store that lacks the revision fails, and a store with an empty name holds nothing.
- Main and sub numbers, counters and latencies are unbounded, except in `RevisionBytes` and `Mixing`, where
  the width is explicit.
- Sorting gives some sorted permutation. The B-tree is an ascending list of keys beside a map.

Where code and comments differ, the model follows the code:

- The comment on `get` speaks of a revision higher than or equal to `atRev` (`pkg/index/key_index.go:127-128`);
  the code returns the newest at or before it.
- `since` panics when the first revision that it reports has main number 0, because `last` starts at 0
  (`pkg/index/key_index.go:167-176`).
- `Update` is documented to succeed only on the latest revision (`pkg/index/index.go:21-22`); it does so for what is
  published, not for revisions already drawn.
- An empty list of nodes comes back from splitting as one empty name; Write skips it, Read does not.

## Model

| member | source | states |
|---|---|---|
| `Revisions.InsertContents` | pkg/index/key_index.go:78-93 | inserting a stale revision adds exactly that revision, as a multiset |
| `Revisions.InsertKeepsSorted` | pkg/index/key_index.go:78-93 | a sorted generation stays sorted wherever the revision belongs |
| `Revisions.SortedUnique` | pkg/index/revision.go:82-86 | a sorted revision list is determined by its contents when equal ages mean equal revisions |
| `KeyStates.NewestGoesLast` | pkg/index/key_index.go:91-93 | appending a revision newer than `modified` is the same as sorted insertion |
| `KeyStates.PutHolds` | pkg/index/key_index.go:65-99 | after a put the key holds what it held and the new revision, nothing else |
| `KeyStates.PutKeepsValid` | pkg/index/key_index.go:65-99 | a put, stale or not, keeps the structural invariant; `modified` does not go back and is at least the new revision |
| `KeyStates.TombstoneKeepsValid` | pkg/index/key_index.go:114-125 | an accepted tombstone keeps the structural invariant |
| `KeyStates.LatestStarted` | pkg/index/key_index.go:193-214 | the last generation whose first revision is at or before the given one, or -1 if no generation is |
| `KeyStates.LastAtOrBefore` | pkg/index/key_index.go:275-284 | the last position at or before the given revision; everything after it is later |
| `KeyStates.StartGeneration` | pkg/index/key_index.go:154-164 | a start past the first generation is non-empty and was created before the queried revision |
| `KeyIndexes.KeyIndex.constructor` | pkg/index/index.go:43-43 | a new key index has no generation and zero `modified` |
| `KeyIndexes.KeyIndex.InsertStale` | pkg/index/key_index.go:79-90 | the backward search and the two slice operations are one insertion right after the last older revision |
| `KeyIndexes.KeyIndex.Grow` | pkg/index/key_index.go:71-98 | both branches give the generation one sorted insertion; only a newest revision counts as a version, only an empty generation draws `created` |
| `KeyIndexes.KeyIndex.Put` | pkg/index/key_index.go:65-99 | the whole new state of the object after a put |
| `KeyIndexes.KeyIndex.Tombstone` | pkg/index/key_index.go:114-125 | when it panics, when it is refused, when it is accepted, and the whole new state, for every state with sorted generations, none at all included |
| `KeyIndexes.KeyIndex.Update` | pkg/index/key_index.go:243-251 | accepted exactly when the latest main number is the assumed one; otherwise nothing changes |
| `KeyIndexes.KeyIndex.FindGeneration` | pkg/index/key_index.go:193-214 | the loop finds the latest started generation unless the revision is at or past its tombstone |
| `KeyIndexes.KeyIndex.Walk` | pkg/index/key_index.go:275-284 | the descending walk stops at the last position at or before the revision |
| `KeyIndexes.KeyIndex.Get` | pkg/index/key_index.go:129-144 | revision, creation and version, not found, or panic, for every state with sorted generations |
| `KeyIndexes.KeyIndex.FindStart` | pkg/index/key_index.go:154-164 | the first loop of since stops at the generation that the specification names |
| `KeyIndexes.KeyIndex.Collect` | pkg/index/key_index.go:166-181 | the inner loop of since with its replacement of equal main numbers and its index panic |
| `KeyIndexes.KeyIndex.Since` | pkg/index/key_index.go:149-184 | the two loops report the revisions of the remaining generations in order, collapsed by main number, or panic; for every state |
| `Histories.RunIsValid` | pkg/index/key_index.go:65-125 | over every history: generations sorted, `modified` the newest, only the last generation empty and never the only one; the key holds exactly the logged revisions |
| `Histories.ModifiedNeverDecreases` | pkg/index/key_index.go:95-98 | from any point of any history to its end `modified` does not go back, and no accepted revision is newer than it |
| `Histories.NoEmptyPanics` | pkg/index/key_index.go:115-117 | the panics on an empty key index are unreachable after any history |
| `Histories.NewestAtMeaning` | pkg/index/key_index.go:127-144 | the reference answer is a log entry at or before the revision that no other such entry beats, and absent only if there is none |
| `Histories.PutView` | pkg/index/key_index.go:65-99 | a put newer than all closed generations changes the newest revision in sight at any point to the newer of the two |
| `Histories.TombstoneView` | pkg/index/key_index.go:114-125 | a newest tombstone becomes what is in sight from its own revision on and leaves earlier views alone |
| `Refinement.WellOrderedRefines` | pkg/index/key_index.go:65-125 | over well-ordered histories later generations are newer, closed ones end in their tombstones, and the view at every revision is the log's |
| `Refinement.GetRefinesLog` | pkg/index/key_index.go:129-144 | over every well-ordered history and at every revision, get answers the last put of the log, or not found after a tombstone or before everything |
| `Refinement.RefinementIsExact` | pkg/index/key_index.go:65-144 | with distinct main numbers, get agrees with the log after every call and at every revision if and only if the history is well-ordered |
| `Refinement.StalePutShows` | pkg/index/key_index.go:71-90 | a put older than the last tombstone makes get disagree with the log at the tombstone's own revision |
| `Refinement.StaleTombstoneShows` | pkg/index/key_index.go:114-125 | a tombstone that is not the newest hides the newest put, so get disagrees there |
| `SinceRefinement.DrawsAheadCreates` | pkg/index/key_index.go:72-74 | if each generation draws its number after everything before it, its `created` exceeds every revision of earlier generations |
| `SinceRefinement.SkipIsSound` | pkg/index/key_index.go:154-164 | skipping generations by `created` loses no revision that since should report |
| `SinceRefinement.ReportPanics` | pkg/index/key_index.go:166-181 | over any list the loops panic exactly when the first revision to report has main number 0 |
| `SinceRefinement.SincePanicsExactly` | pkg/index/key_index.go:149-184 | for every key index whatever: exactly when since panics |
| `SinceRefinement.SinceRefinesLog` | pkg/index/key_index.go:149-184 | over well-ordered histories and whatever numbers: since panics exactly when the log starts to report at main number 0, and otherwise reports the newest entry of each main number that has one not older than the query, in increasing order |
| `SinceRefinement.KeptIsSince` | pkg/index/key_index.go:146-148 | at one revision the documented answer is given exactly if the newest sub of that main number, if any, is not negative |
| `SinceRefinement.SinceIsExact` | pkg/index/key_index.go:146-184 | since gives the documented answer at every revision if and only if no main number is 0 and the newest sub of each is not negative |
| `SinceOrder.SinceOrderIsExact` | pkg/index/key_index.go:149-184 | with proper and distinct main numbers, stale tombstones included, since gives the documented answer at every revision if and only if later generations are newer |
| `SinceOrder.FlattenIsLog` | pkg/index/key_index.go:65-125 | over every history the generations hold the logged revisions, each as often as it was accepted |
| `SinceRefinement.ZeroPanics` | pkg/index/key_index.go:167-176 | after one put at main number 0, since(0) panics |
| `SinceRefinement.NegativeSubIsDropped` | pkg/index/key_index.go:170-172 | after one put with a negative sub, since at its main number reports nothing |
| `SinceRefinement.SinceUnique` | pkg/index/key_index.go:146-148 | the log leaves since only one possible answer |
| `CountedRuns.CountedIsAhead` | pkg/index/key_index.go:72-74 | in every run over all keys in which main numbers are drawn from the counter before their calls arrive and `created` during the call, every key draws ahead, and all its main numbers are between 1 and the counter |
| `CountedRuns.CountedSince` | pkg/index/key_index.go:149-184 | in every such run, on every key whose history is well-ordered with subs that are not negative, since gives the documented answer at every revision |
| `CountedRuns.SingleKeyRangeIsSorted` | pkg/index/index.go:159-166 | in the same runs the branch of RangeSince that does not sort is sorted all the same |
| `KeyIndexLaws.ArrivalOrderIrrelevant` | pkg/index/key_index.go:76-98 | any two arrival orders of the same puts with no tombstone between give the same revision lists and the same `modified` |
| `KeyIndexLaws.AlikeForever` | pkg/index/key_index.go:129-144 | key indexes with the same revisions stay so under any further calls, so every later get answers the same revision |
| `KeyIndexLaws.VersionsConserved` | pkg/index/key_index.go:95-98 | in every generation of every history, `ver` plus the stale inserts is the number of revisions |
| `KeyIndexLaws.VersionOfGet` | pkg/index/key_index.go:138-141 | the version of get is the position plus one, less the stale inserts of the generation |
| `KeyIndexLaws.InOrderIsExact` | pkg/index/key_index.go:95-98 | there are no stale inserts, so that versions are positions, exactly when every accepted call was newer than all before |
| `KeyIndexLaws.CreatedIsDrawn` | pkg/index/key_index.go:72-74 | over every history each generation that holds something carries the number drawn by the accepted call that opened it |
| `KeyIndexLaws.OpenerIsUnique` | pkg/index/key_index.go:72-74 | which is one call for each generation |
| `KeyIndexLaws.CreatedOfGet` | pkg/index/key_index.go:138-141 | what get reports as created is the number drawn for the generation that holds the reported revision |
| `KeyIndexLaws.UpdateIsCompareAndSwap` | pkg/index/key_index.go:243-251 | of two successful updates the later one assumes at least what the earlier wrote, whatever arrives in between; so no assumption succeeds twice and mains increase |
| `KeyIndexLaws.UpdateAgain` | pkg/index/key_index.go:243-251 | the same assumption succeeds again exactly when the first success did not write a newer main number |
| `Bytes.LessIsFirstDifference` | pkg/index/key_index.go:216-218 | keys are ordered by their first difference, a proper prefix first |
| `TreeIndexes.TreeRunProjects` | pkg/index/index.go:38-56 | keys do not interfere: each key's state is the run of its own calls, and a key is present exactly if one was accepted |
| `TreeIndexes.TreeNeverEmpty` | pkg/index/index.go:38-56 | every key index in the tree is well-formed and not empty, so no call through the tree panics on emptiness |
| `TreeIndexes.InRangeExactly` | pkg/index/index.go:170-173 | the interval is from the key itself up to, but not including, the end, or unbounded for an empty end |
| `TreeIndexes.SortRevisions` | pkg/index/index.go:178-178 | some sorted permutation |
| `TreeIndexes.TreeIndex.constructor` | pkg/index/index.go:30-34 | an empty tree |
| `TreeIndexes.TreeIndex.Put` | pkg/index/index.go:38-56 | the tree stays the result of all calls so far, with new keys in their place in the order |
| `TreeIndexes.TreeIndex.Add` | pkg/index/index.go:50-50 | a new key enters in ascending order and nothing else changes |
| `TreeIndexes.TreeIndex.Tombstone` | pkg/index/index.go:129-145 | refused exactly for unknown or already deleted keys; the tree stays the result of all calls |
| `TreeIndexes.TreeIndex.Update` | pkg/index/index.go:205-221 | the three outcomes and when each occurs; the tree stays the result of all calls |
| `TreeIndexes.TreeIndex.Get` | pkg/index/index.go:73-95 | never panics; at 0 asks for the latest main number of the key |
| `TreeIndexes.TreeIndex.CollectRange` | pkg/index/index.go:169-177 | the walk collects what since reports for exactly the keys from `key` on and below `end` |
| `TreeIndexes.TreeIndex.SinceAt` | pkg/index/index.go:174-175 | since of a key in the tree |
| `TreeIndexes.TreeIndex.RangeSince` | pkg/index/index.go:150-181 | with an end, a sorted permutation of the combined reports of exactly the keys in the interval; without, one key's report |
| `RevisionBytes.DecodeUndoesEncode` | pkg/index/revision.go:69-80 | decoding gives back main and sub of every pair of 64-bit numbers, whatever follows in the buffer |
| `RevisionBytes.EncodeLayout` | pkg/index/revision.go:22-25 | byte by byte: the digits of the main number from the highest, an underscore, the digits of the sub number |
| `RevisionBytes.OrderIsExact` | pkg/index/revision.go:59-73 | byte order is the order of revisions exactly when the numbers that decide have the same sign |
| `RevisionBytes.OrderOfNonNegatives` | pkg/index/revision.go:59-73 | for non-negative numbers byte order is revision order, and equal bytes mean equal ages |
| `RevisionBytes.PutUint64` | pkg/index/revision.go:70-72 | eight bytes at the offset are the number, highest first; the rest of the buffer stays |
| `RevisionBytes.RevToBytes` | pkg/index/revision.go:69-73 | the buffer starts with the encoding and keeps the rest; a short buffer panics after exactly the parts that fit |
| `RevisionBytes.BytesToRev` | pkg/index/revision.go:75-80 | whatever revision was encoded into the first 17 bytes comes back; a short buffer panics |
| `RevisionBytes.BucketsAreExact` | cmd/http/main.go:326-331 | two revisions have the same placement key exactly if their main numbers divide to the same bucket |
| `RevisionBytes.BucketBytes` | cmd/http/main.go:328-330 | byte i of a placement key is the i-th digit of the bucket number to the base 256, lowest first, so that weighted they add up to it |
| `RevisionBytes.PrimaryRevBytes` | cmd/http/main.go:326-331 | the loop fills eight bytes with the placement key; a bucket size of 0 panics |
| `RevisionBytes.QuotientTruncates` | cmd/http/main.go:327-327 | the bucket number is the exact quotient without its fraction, toward zero for every sign, and wraps only for the smallest number over -1 |
| `ProtocolSteps.BeginKeeps` | cmd/http/main.go:230-246 | beginning a create or a read keeps the protocol invariant |
| `ProtocolSteps.IncrementKeeps` | pkg/revision/revision.go:8-8 | incrementing the counter keeps the invariant |
| `ProtocolSteps.LoadKeeps` | pkg/revision/revision.go:9-9 | loading the counter, possibly after other increments, keeps the invariant |
| `ProtocolSteps.PutSyncKeeps` | pkg/piping/sync_async_piping_manager.go:76-98 | a put on a sync store, failed, successful or skipped for an empty name, keeps the invariant |
| `ProtocolSteps.PutAsyncKeeps` | pkg/piping/sync_async_piping_manager.go:56-74 | a put on an async store at any time keeps the invariant |
| `AsyncStores.PutAsyncStores` | pkg/piping/sync_async_piping_manager.go:56-74 | a put on an async store stores the value of the create under its revision there and changes no other entry of any store |
| `AsyncStores.PutSyncStores` | pkg/piping/sync_async_piping_manager.go:76-97 | so does a put on a sync store that succeeds; one that fails, or is skipped for an empty name, changes no store |
| `AsyncStores.AsyncStoresHold` | pkg/piping/sync_async_piping_manager.go:56-74 | over every run with distinct revisions, once each async store of a revision has had its put, all of them hold the value of its create and keep it |
| `ProtocolSteps.PublishKeeps` | cmd/http/main.go:282-291 | publishing by Put or Update after all sync stores were tried keeps the invariant, accepted or refused; a refusal saw another revision than the one assumed, or none |
| `ProtocolSteps.PublishDraws` | pkg/index/key_index.go:72-74 | an accepted publication into an empty generation raises the counter by one, to the number it stores as created, and no other publication moves it |
| `ProtocolSteps.AbortKeeps` | cmd/http/main.go:249-280 | giving up after drawing a revision keeps the invariant |
| `ProtocolSteps.LookUpKeeps` | cmd/http/main.go:176-182 | looking up the latest revision keeps the invariant |
| `ProtocolSteps.FetchKeeps` | pkg/piping/sync_async_piping_manager.go:25-46 | reading the first sync store keeps the invariant: a value that is read was written under that revision |
| `ProtocolSteps.RespondKeeps` | cmd/http/main.go:292-292 | answering keeps the invariant, in particular the order in real time |
| `ProtocolSteps.RunKeeps` | cmd/http/main.go:230-293 | the invariant holds in every state of every run |
| `ProtocolInvariant.LookUpFindsLatest` | pkg/index/index.go:91-93 | without deletes, asking for the latest finds exactly the newest published revision |
| `Linearizability.RealTime` | validation/README.md:37-41 | a call answered before another began comes before it in the order of revisions |
| `Linearizability.ReadsItsWriter` | cmd/http/main.go:176-194 | a read returns the value of the one published create of its revision and key |
| `Linearizability.RevisionOrderIsExact` | pkg/index/index.go:21-22 | with distinct revisions the order by revision always explains all reads; it also explains why each conditional create succeeded or was refused if and only if every accepted one is the next published revision after the one it assumed |
| `Linearizability.EveryRunIsRegister` | validation/README.md:37-41 | every interleaving of creates, conditional creates and reads, with any store failures, reads like a register of values and revisions that creates write to, on every key, if no two creates drew one revision; conditions are not part of this one |
| `Linearizability.EveryRunIsLinearizable` | validation/README.md:37-41 | every such run is linearizable, conditions included, on every key where accepted conditional creates are next after what they assumed |
| `Linearizability.UnconditionalIsNext` | cmd/http/main.go:282-286 | which is every key with unconditional creates only |
| `Linearizability.NoFailuresNoErrors` | pkg/piping/sync_async_piping_manager.go:25-46 | while no sync put failed and revisions have a first sync store, no read fails |
| `Draws.DrawIsBounded` | pkg/revision/revision.go:7-10 | a call of the counter returns at least its own increment and at most the counter |
| `Draws.CounterInRealTime` | pkg/revision/revision.go:7-10 | in every interleaving a call of the counter that returned before another began returned the strictly smaller number, also within creates that overlap |
| `Draws.ApartIsDistinct` | pkg/revision/revision.go:7-10 | if at no point two creates are between increment and load, all revisions differ, and if no two of different keys are, revisions of different keys differ, however else the steps interleave |
| `Draws.ApartLinearizes` | validation/README.md:37-41 | runs with all draws apart read like a register on every key, and are linearizable where conditional creates are next after what they assumed |
| `PutOrder.RunIsTimed` | pkg/piping/sync_async_piping_manager.go:76-98 | in every run on first stores that are listed once, each such store holds what was put there last, every read got what was put last before its fetch, and calls answered before others began were decided before them |
| `SharedRevisions.TimedRealTime` | validation/README.md:37-41 | ordering by revision, and within one by puts on the first store and fetches from it, respects real time, also among creates that share a number |
| `SharedRevisions.TimedLinearizes` | validation/README.md:37-41 | that order is a linearization of every key with unconditional creates, if revisions of different keys differ |
| `SharedRevisions.KeysApartLinearize` | validation/README.md:37-41 | every run in which creates of different keys never draw at the same time is linearizable on every key with unconditional creates; creates of one key may draw, and share, numbers as they like |
| `SharedRevisions.OneKeyLinearizes` | validation/README.md:37-41 | every run of unconditional creates and reads of one key is linearizable, with no assumption on the counter and with any failures of stores |
| `Overlaps.OverlapBreaks` | pkg/revision/revision.go:8-9 | from every reachable state with two creates between increment and load, the run can be finished so that a read returns a value that nobody created under its key, which no order explains |
| `Overlaps.ApartIsExact` | pkg/revision/revision.go:8-9 | over every schedule of unconditional creates whose values differ across keys: wherever it is stopped and however it is finished it is linearizable on every key if and only if no two creates of different keys are ever between increment and load together |
| `Overlaps.CollisionIsReachable` | pkg/revision/revision.go:8-9 | for any two keys and values there is such a run from the start |
| `StaleCreates.StaleCreateBreaks` | pkg/index/key_index.go:243-251 | from every reachable state in which an accepted conditional create is the latest and a create with a smaller revision is unpublished that began after the assumed one was answered, or after a read that returned it was, finishing that create and reading the key is explained by no order |
| `StaleCreates.UpdatesBreak` | pkg/index/key_index.go:243-251 | from every reachable state with distinct revisions and no failed put there is such a continuation, on any key: reads still fit a register, but the condition of the conditional create does not |
| `Continuations.FinishCreate` | cmd/http/main.go:271-292 | from every reachable state a create that the index accepts can be put on its stores, published and answered, and the index then shows the newer of the two revisions |
| `Continuations.ReadNow` | cmd/http/main.go:176-194 | from every reachable state a read of a stored key can be run to the end and returns the latest revision with what its first store holds |
| `Chains.RunIsExact` | pkg/consistent/chain/node.go:22-33 | in every run of agreeing writes each node holds exactly the keys of the writes that got past it, with their values |
| `Chains.PrefixIsExact` | pkg/consistent/chain/chain.go:60-75 | every state of every run has the prefix property if and only if no two writes give a key different values |
| `Chains.ConflictBreaksPrefix` | pkg/consistent/chain/chain.go:60-75 | two values for a key give a run that breaks it |
| `Chains.NilMeansEverywhere` | pkg/consistent/chain/node.go:22-33 | a write that got past the tail is on every node |
| `Chains.ErrorLeavesTheRest` | pkg/consistent/chain/node.go:22-33 | a write that failed at a node is on exactly the nodes before it |
| `Chains.QuiescenceMakesEqual` | pkg/consistent/chain/chain.go:69-73 | once every write, synchronous or in the background, is through, all replicas are equal |
| `Chains.ReadsAreWritten` | pkg/consistent/chain/node.go:35-46 | in every run of agreeing writes a node holds a key exactly if some write of it got past the node, and then with the value of each of them |
| `Chains.LoneWrite` | pkg/consistent/chain/chain.go:60-75 | one write on its own is a run of its puts up to where it stops |
| `ChainNodes.FirstFailure` | pkg/consistent/chain/node.go:25-32 | the first failing node from a position on, or the length |
| `ChainNodes.ChainNode.Write` | pkg/consistent/chain/node.go:22-33 | the recursion puts the pair on the databases of the nodes before the first failure and on no other, shared ones included, and answers nil exactly without a failure |
| `ChainNodes.ChainNode.Read` | pkg/consistent/chain/node.go:35-46 | it returns a value exactly if the database of the node holds the key with that value, and an error exactly if it does not hold the key |
| `ChainNodes.Chain.constructor` | pkg/consistent/chain/chain.go:49-58 | the nodes are linked head to tail over the given databases, any number of them, shared or not |
| `ChainNodes.Chain.Write` | pkg/consistent/chain/chain.go:60-75 | what each consistency level has written when it answers, and the answer, with the panics of chains of no and of one node |
| `ChainNodes.UnsharedWrite` | pkg/consistent/chain/chain.go:60-75 | where no database is shared, a call has the effect of one write in the state machine |
| `ChainNodes.Chain.Read` | pkg/consistent/chain/chain.go:94-110 | it returns a value exactly if the database read holds the key with it: that of the tail for linearizable reads, of the node drawn at random for sequential ones; an error for other levels, a panic without nodes |
| `ChainNodes.WriteThenRead` | pkg/consistent/chain/chain.go:60-110 | once a linearizable write has answered nil, every read returns its value, from the tail as from any drawn node |
| `Mixing.MixIsBijective` | pkg/partition/consistent/rendezvous.go:61-66 | the three xor-shifts and the multiplication have an inverse on both sides over all 64-bit words |
| `Mixing.MixBits` | pkg/partition/consistent/rendezvous.go:61-66 | before the multiplication each bit is the xor of named bits of the word, those 12 above, 25 below and 27 above |
| `Mixing.MixOfOne` | pkg/partition/consistent/rendezvous.go:65-65 | a known answer, which fixes the multiplier |
| `Mixing.BlendIsExact` | pkg/partition/consistent/rendezvous.go:35-38 | scores agree exactly where the xor of key and name hash does |
| `Mixing.NoTies` | pkg/partition/consistent/rendezvous.go:35-43 | different name hashes never get the same score for a key |
| `RendezvousHashing.OwnerIndexOwns` | pkg/partition/consistent/rendezvous.go:34-44 | the owner is the first node with the highest score |
| `RendezvousHashing.EveryNodeCanOwn` | pkg/partition/consistent/rendezvous.go:27-45 | for any nodes and any of them with a name hash of its own there is a key hash whose keys it owns |
| `RendezvousHashing.OwnerIgnoresOrder` | pkg/partition/consistent/rendezvous.go:27-45 | with distinct name hashes every insertion order gives a key the same owner |
| `RendezvousHashing.OwnerIsExact` | pkg/partition/consistent/rendezvous.go:27-45 | for any nodes and any key: all insertion orders give one owner if and only if no other node has the name hash of the owner |
| `RendezvousHashing.MinimalDisruption` | pkg/partition/consistent/rendezvous.go:47-51 | after adding any nodes the owner of a key is the old one or an added one |
| `RendezvousHashing.LocateIsDistinct` | pkg/partition/consistent/rendezvous.go:68-89 | with distinct nodes and a count up to their number, the replicas are distinct nodes, owner first |
| `RendezvousHashing.LocateFollows` | pkg/partition/consistent/rendezvous.go:85-87 | after the owner comes the node added next, and after the last one the first |
| `RendezvousHashing.Rendezvous.AddNode` | pkg/partition/consistent/rendezvous.go:47-51 | the node and its hash are appended |
| `RendezvousHashing.Rendezvous.FindOwner` | pkg/partition/consistent/rendezvous.go:73-83 | the loop with a running maximum finds the owner |
| `RendezvousHashing.Rendezvous.LocateKey` | pkg/partition/consistent/rendezvous.go:27-45 | the owner, or nothing on an empty table |
| `RendezvousHashing.Rendezvous.LocateNodes` | pkg/partition/consistent/rendezvous.go:68-89 | the owner and its neighbours counted around, nothing if there are too few, a panic on an empty table |
| `RingHashing.AddAllIsCovered` | pkg/partition/consistent/ring.go:37-45 | whatever is added, the hashes stay sorted, as many as the names, and each has a node |
| `RingHashing.AddAllIsRingOf` | pkg/partition/consistent/ring.go:27-45 | for distinct nodes the ring holds exactly them, each at its hash |
| `RingHashing.RingIgnoresOrder` | pkg/partition/consistent/ring.go:27-45 | any insertion order of distinct nodes gives the same ring, hence the same answers |
| `RingHashing.RingLocateIsDistinct` | pkg/partition/consistent/ring.go:84-104 | with distinct nodes and a count up to their number, the replicas are distinct across the wrap |
| `RingHashing.RingFirst` | pkg/partition/consistent/ring.go:84-104 | the first node of a key has as many hashes of nodes below its own as the hash of the key leaves over the number of nodes |
| `RingHashing.RingFollows` | pkg/partition/consistent/ring.go:95-101 | each further node is at the next larger hash, after the largest at the smallest |
| `RingHashing.SamePartition` | pkg/partition/consistent/ring.go:52-58 | keys share a partition exactly if the number of nodes divides the difference of their hashes |
| `RingHashing.SortedPermutationUnique` | pkg/partition/consistent/ring.go:41-43 | any sort gives the list that the model computes by insertion |
| `RingHashing.Ring.AddNode` | pkg/partition/consistent/ring.go:27-45 | a known name changes nothing; a new one enters both maps and adds its hash to the sorted list |
| `RingHashing.Ring.FindPartitionID` | pkg/partition/consistent/ring.go:52-58 | the remainder of the hash of the key over the number of nodes, or -1 on an empty ring |
| `RingHashing.Ring.LocateNodes` | pkg/partition/consistent/ring.go:84-104 | the nodes at consecutive hashes from the partition on, counted around; nothing if there are too few |
| `Configurations.GetReplications` | pkg/config/config.go:71-103 | succeeds exactly if all latencies are known; every store is on its side of the threshold and in its zone, nothing is lost or invented, and distinct targets stay distinct; nodes go by address for Redis and by name otherwise, with the configured or measured latency |
| `Zones.LocateInIsDistinct` | pkg/partition/consistent/hashing.go:166-175 | either kind of table gives the requested number of distinct nodes exactly if it has as many |
| `Zones.LocateInFirst` | pkg/partition/consistent/hashing.go:166-175 | a ring starts with the node at the partition of the key, a rendezvous table with one of the highest score |
| `Zones.SortByLatency` | pkg/partition/consistent/hashing.go:129-131 | a permutation in ascending latency |
| `Zones.PickPerZone` | pkg/partition/consistent/hashing.go:122-128 | one node for each zone in order, or the first failure |
| `Zones.KeyDecides` | pkg/partition/consistent/hashing.go:118-127 | the key decides which zone comes first and which node of a zone is picked, with its name and latency |
| `Zones.KeyDecidesAsync` | pkg/partition/consistent/hashing.go:142-142 | and which remote node comes first |
| `Zones.SyncGivenIsSet` | pkg/partition/consistent/hashing.go:112-136 | whatever order the sort leaves among equal latencies, a proper manager gives the requested number of nodes, in pairwise different zones, by ascending latency |
| `Zones.AsyncGivenIsSet` | pkg/partition/consistent/hashing.go:138-147 | and the requested number of different remote nodes |
| `Zones.GetSyncNodes` | pkg/partition/consistent/hashing.go:112-136 | the picks of exactly the zones of the key, in ascending latency; for a proper manager never a panic, and success exactly with enough zones |
| `Zones.GetAsyncNodes` | pkg/partition/consistent/hashing.go:138-147 | what the remote table gives; for a proper manager never a panic, and success exactly with enough remote nodes |
| `Zones.GetNodes` | pkg/partition/consistent/hashing.go:149-164 | both sets as comma-joined lists, sync first, or an error if either fails; for a proper manager exactly when each happens |
| `Zones.SomethingIsGiven` | pkg/partition/consistent/hashing.go:149-164 | with enough zones and remote nodes every key has lists |
| `Placements.NewSyncAsyncHashingManager` | pkg/partition/consistent/hashing.go:90-110 | whatever the iteration order, each zone is entered once and the latency map is that of all nodes in order of visit |
| `Placements.LastIsNoted` | pkg/partition/consistent/hashing.go:99-108 | of nodes with one name the last one determines the latency |
| `Placements.BuiltIsOk` | pkg/partition/consistent/hashing.go:90-110 | distinct targets, and for rings distinct hashes, give a manager with proper tables, one zone per name and true latencies |
| `Placements.PlaceKey` | cmd/http/main.go:78-94 | from configuration to lists: no panic; success exactly with known latencies, enough zones and enough remote stores; then LocalCount sync stores below the threshold in different zones by ascending latency and RemoteCount async ones at or above it |
| `Placements.PipingReachesChosen` | pkg/piping/sync_async_piping_manager.go:25-101 | Write reaches exactly the chosen stores of both lists, empty lists included, and Read goes to a sync store of least latency |
| `Placements.SyncAndAsyncAreDisjoint` | pkg/partition/consistent/hashing.go:149-164 | no target is in both lists |
| `NodeLists.Split` | pkg/piping/sync_async_piping_manager.go:164-164 | splitting never gives an empty list, and no piece has a comma |
| `NodeLists.SplitStores` | pkg/piping/sync_async_piping_manager.go:158-174 | an error exactly for no entries; otherwise at least one sync name |
| `NodeLists.RoundTripIsExact` | pkg/partition/consistent/hashing.go:156-163 | splitting undoes joining exactly for non-empty lists of comma-free names |
| `NodeLists.StoresRoundTrip` | pkg/piping/sync_async_piping_manager.go:158-174 | both lists that GetNodes writes are read back, an empty one as one empty name |
| `NodeLists.ReadTarget` | pkg/piping/sync_async_piping_manager.go:28-39 | there is a target unless the revision has no entries at all |
| `NodeLists.WriteTargetsAreExact` | pkg/piping/sync_async_piping_manager.go:56-83 | Write reaches the joined names exactly when all are non-empty and comma-free; an empty list means no write |
| `EndToEnd.PlaceKeyOf` | cmd/http/main.go:248-249 | the key that tables hash has the eight digits of the bucket number, lowest first |
| `EndToEnd.ServerExists` | cmd/http/main.go:77-106 | suitable stores with known latencies, enough zones and enough remote stores admit a server that places every bucket of revisions |
| `EndToEnd.ServerIsConfigured` | cmd/http/main.go:246-253 | on every server each revision is on LocalCount stores below the threshold in different zones and RemoteCount others at or above it |
| `EndToEnd.ServedReadsSucceed` | cmd/http/main.go:176-194 | on every server, while no sync put failed, no read fails |
| `EndToEnd.PublishedIsStored` | pkg/piping/sync_async_piping_manager.go:76-101 | every sync store of a published revision holds the value of its writer |
| `EndToEnd.VisibleIsReplicated` | cmd/http/main.go:246-292 | on every server, whatever a run without failed puts has made visible is on LocalCount sync stores in pairwise different zones, with the value that was created |
| `EndToEnd.AsyncIsReplicated` | cmd/http/main.go:271-280 | on every server, once the async puts of a revision have happened it is on RemoteCount different stores at or above the threshold, with the value that was created |
| `EndToEnd.ServerLists` | pkg/partition/consistent/hashing.go:149-164 | on every server the first sync store of each revision has a name and is listed once |
| `EndToEnd.ServedDrawsAreExact` | pkg/revision/revision.go:8-9 | on every server the equivalence between safety of all ways to finish a run and draws of different keys apart |
| `EndToEnd.ServedKeyLinearizes` | validation/README.md:37-41 | on every server every run of unconditional creates and reads of one key is linearizable |
| `EndToEnd.ServedUpdatesBreak` | pkg/index/key_index.go:243-251 | on every server any run with distinct revisions and no failed put can be continued so that a conditional create is not explained |

## Left out

- HTTP routing, JSON, tracing, logging, reading configuration files: plumbing without properties of its own.
- Redis, latency-simulating databases and latency probing: a store is a map, latency an input.
- Generated gRPC code, server stubs and scripts.
- B-tree internals, xxhash and sorting algorithms: libraries.
- Compaction: described in comments only (`pkg/index/key_index.go:34-57`).
- `equal` and `Equal` of the index: the comparison of revisions rejects only when both numbers differ (`pkg/index/key_index.go:300`), so it is not an equality.
- `Restore` and `Range` of the tree: not part of the `Index` interface.
- Deletes in the protocol: `deleteKV` removes data before the tombstone (`cmd/http/main.go:309-319`), so a read can fall into the gap. Deletes of a chain answer nil after a failure downstream (`pkg/consistent/chain/node.go:48-59`).
- `ChainPiping`: dispatch over the chain; its Write drops errors.
- `SyncHashingManager`: one table and a join, covered by the laws of the tables and of the node lists.
- Reads by range of revisions through the server: the index side is `RangeSince`; fetching is the read step repeated.
- Overflow of counters, revisions and `storeLatency * time.Millisecond` in 64 bits.
- `ChainNodes.Chain.Write`: the background part of a sequential write is not part of the call; it is a write in flight in `Chains`. On a chain of one node that part dereferences nil, which is not modelled.
- `Placements.NewSyncAsyncHashingManager`: a table is the list of nodes added to it, not a shared mutable object; the classes `Rendezvous` and `Ring` are proved to answer what these lists determine.
- `Linearizability.RevisionOrderIsExact`: with conditional creates the equivalence is about the order by revision; for the existence of any order one direction is proved, and `StaleCreates` gives a family of runs that have none. Which other orders could explain a run depends on how calls overlap that nobody observed.
