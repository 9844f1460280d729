# A verified model of the algorithms of the node

This project models eight parts of the node in Dafny and proves what their comments and callers rely on: cluster
linearization, the coins cache, the check queue, headers sync, the address manager, the block index, big numbers with
compact targets, and the Base58 and Bech32 codecs.

**Cluster linearization** (`src/cluster_linearize.h`). A cluster is a graph of transactions, each with a fee and a
size. A linearization is an order in which no transaction comes before one of its ancestors. Its chunks, cut so that
feerates do not increase, draw a feerate diagram, and a linearization is at least as good as another if its diagram is
nowhere below the other's. The model covers the dependency graph, chunking, the spanning-forest state with all its
operations, `Linearize`, `PostLinearize` and `FixLinearization`. The main results:

* When `Linearize` returns with `optimal` set, no ancestor-closed set of transactions is above the diagram of its
  output, and no other order has a better diagram. Whatever it returns is a topological order at least as good as the
  one given, and it only gives up once the work it has done reaches the limit.
* Every `Activate` and `Deactivate` keeps the state consistent: chunks are the connected components of the active
  dependencies and trees, and the cached top of every active dependency is the parent's side of it.
* `Improve` takes a topological state to a topological state whose diagram is nowhere below the one before.
* `PostLinearize` keeps the order topological, never lowers the diagram, leaves connected chunks, is optimal on trees
  of either kind, and a leaf that is moved to the end, its fee increased or not, is brought back by it to a result no
  worse.
* `FixLinearization` makes any order topological, and only moves an element back past its own ancestors.

Diagrams are compared through supporting lines: for a feerate r, the most that any prefix earns above r per size. A
concave diagram is nowhere below another one if and only if this holds of the supporting lines, and the merge rules,
the passes and the tree argument are all about single feerates r.

**The coins cache** (`src/coins.*`). A database with caches stacked on it. The model keeps entries with DIRTY and
FRESH flags, the doubly linked list of flagged entries as pointers, the memory count and the best block. Beside every
level it keeps a plain map, and every operation does to that map exactly what it promises; the "FRESH flag misapplied"
exception cannot occur.

**The check queue** (`src/checkqueue.h`). A state machine in which the critical sections of the master and of any
number of workers are atomic steps, taken in any order, with spurious wake-ups. `Complete` returns nothing if and only
if no check of its round fails, and then each of them was run exactly once; nobody waits for nothing, and every round
comes to an end.

**Headers sync** (`src/headerssync.*`). The two-phase download. Over whole runs, what is returned is a prefix of what
was redownloaded, chained by hashes although the buffer drops them, checked bit by bit against the first download, and
released only with enough headers or enough work on top.

**The address manager** (`src/addrman.cpp`). Two hashed tables, the id map, the address index, the random order,
counters per network and the pending collisions. Every operation keeps all of them consistent with each other, so that
`CheckAddrman` returns 0 in every state that can be reached. A tried slot that is taken stays taken; hence whoever
waits for one waits for a slot that is taken, and `SelectTriedCollision` always finds an address there.

**The block index** (`src/chain.*`). In every tree of blocks with skip pointers, the fast ancestor query is the walk
along parents, the last common ancestor is the highest, `SetTip` leaves the branch of the tip although it stops early,
and a locator has exactly the promised heights and logarithmic length.

**Big numbers and compact targets** (`src/arith_uint256.*`). For any number of limbs: addition, negation, shifts,
comparison and bit length on the limb array, and on top of them shift-and-subtract division, which gives the quotient
rounded down. `GetBlockProof` is 2^256 / (target + 1). The overflow flag of `SetCompact` is exact, and for every
256-bit number the compact form reads back with the sign it was written with, without overflow, no greater, with as
many bits, and to the same form again.

**Base58** (`src/base58.cpp`). Encoding and decoding are inverse to each other, decoding accepts exactly the strings
that it should, and neither buffer is ever too small, by 58^71 <= 256^52 and 256^8 <= 58^11.

**Bech32 and Bech32m** (`src/bech32.cpp`). The checksum is the remainder in a code over GF(32); computing on packed
30-bit words does the same. Exactly one sequence of six symbols completes a string. A change within six symbols in a
row never verifies again, as a step can be undone, and neither does a change of at most three symbols within 1023: the
generator has three powers in a row of a primitive element of GF(1024) as roots. An encoded string decodes to what was
encoded if and only if its human-readable part is not empty and printable and its length is within the limit, and
whatever is decoded encodes to the same string in small letters. The checksum covers the human-readable part: a change
of one of its characters is found out too.

## What to know about the model

* Fees, sizes, counts and work are unbounded integers. The callers of `src/cluster_linearize.h` keep sums of fees and
  sizes within 64 and 32 bits, and chain work stays within 256 bits. The limbs of big numbers have 32 bits.
* Transactions have positive size. The empty `FeeFrac` occurs only as the feerate of the sentinel of `PostLinearize`.
* Random choices (tie-breaking, shuffles, the secret offset of commitments) are arbitrary choices, so everything holds
  for every seed; the draw of `AddSingle` is a parameter. The heaps of `GetLinearization` and of `OptimizeStep` are
  sets or queues from which an element is picked.
* The arrays of structures `m_tx_data` and `m_dep_data` are one sequence per field. Iterating over a bit set is an
  ascending loop with a membership test.
* The comment in `MergeStep` (`src/cluster_linearize.h:816-818`) says that every other chunk is considered once. The
  code only keeps track of the transactions already reached, so that a chunk can be considered again through another
  of its transactions. The model does what the code does, and the choice of chunk is not affected.
* `SpendCoin` returns true for a coin that the cache holds as spent, although it has no effect then; its description
  promises no effect, which is what is proved. Its contract says exactly when it returns true, and `SpentTwice` spends
  a coin twice.
* `AddCoin` may not be told that there is nothing to overwrite if the coin is below and has no entry in the cache. Its
  contract says that the flags stay right if and only if this is observed, and that of `AddCoins` for which outputs of
  a transaction it is not.
* A flush hands down the stored best block even if the cache has none. The view below then forgets its own;
  `FlushedBlock` says exactly when it still reports the same block, and `FlushedNull` shows a stack where it does not.
* With a redownload buffer of size zero (the default of `src/kernel/chainparams.h:70`, which every network overrides),
  a header is checked against the difficulty of the starting point instead of that of its predecessor;
  `TruePredecessor` says exactly when the check uses the right one, and `StaleDifficulty` is a run that releases
  headers whose difficulty may not follow.
* In `ResolveCollisions` the case of a collision that is none any more (`src/addrman.cpp:961-964`) does not arise, as
  a tried slot never becomes free.
* `CheckAddrman` compares how many networks have counters, and then only the counters that exist. It can return 0
  although a network has none, if there is an empty counter for another one; `PassedState` says exactly when the
  counters are right, and `MissingCounter` is such a state. No operation of the address manager leads there.
* A plain `char` counts as unsigned, as the human-readable part of a Bech32 string may hold any character when it is
  encoded; decoding accepts only printable ones.

## Model

| member | source | states |
|---|---|---|
| FeeFracs.CompareIsRate | src/util/feefrac.h:157-176 | comparing by cross-multiplication is comparing fee per size as real numbers |
| DepGraphs.DepGraph.AddTransaction | src/cluster_linearize.h:134-151 | the new transaction takes the first free position, has only itself as ancestor and descendant, and the others keep theirs |
| DepGraphs.DepGraph.RemoveTransactions | src/cluster_linearize.h:158-171 | the relation stays closed, and no removed transaction is left in any ancestor or descendant set |
| DepGraphs.DepGraph.AddDependencies | src/cluster_linearize.h:178-199 | the ancestors and descendants are those of the closed relation with the new dependencies |
| DepGraphs.AddsClosure | src/cluster_linearize.h:178-199 | after adding dependencies the ancestor sets are again reflexive and transitive, with the descendant sets as inverse |
| DepGraphs.AddsLeast | src/cluster_linearize.h:172-199 | the new relation is the smallest closed one that has the old one and the new dependencies in it |
| DepGraphs.DepGraph.GetReducedParents | src/cluster_linearize.h:209-222 | the result is exactly the direct parents: ancestors with no other ancestor in between |
| Chunking.ChunkingUnique | src/cluster_linearize.h:414-424 | an order has only one division into solid chunks of non-increasing feerate |
| Chunking.AbsorbIsChunking | src/cluster_linearize.h:433-440 | merging the new transaction with chunks of lower feerate before it gives again such a division |
| Chunking.PrefixOnOrBelow | src/cluster_linearize.h:414-424 | every prefix of an order is on or below its diagram |
| Chunking.LeastMajorant | src/cluster_linearize.h:414-424 | the diagram is the least concave one above all prefixes |
| ChunkMethods.ChunkLinearization | src/cluster_linearize.h:446-462 | the loop over feerates alone returns the feerates of those chunks |
| ChunkMethods.ChunkLinearizationInfo | src/cluster_linearize.h:426-444 | the loop over sets returns the same chunks, each with its set and its feerate |
| Diagrams.DominatesBySupport | src/cluster_linearize.h:414-424 | if all supporting lines are at least as high, the diagram is nowhere below |
| Trees.JoinComponents | src/cluster_linearize.h:686-735 | an activated dependency joins the components of its ends into one |
| Trees.SplitComponent | src/cluster_linearize.h:738-770 | a deactivated dependency splits its component into the two sides of it |
| Flow.NoPartBeatsTree | src/cluster_linearize.h:514-523 | in a tree whose tops all weigh at most nothing, no ancestor-closed part weighs more than nothing |
| Forests.ActivateConsistent | src/cluster_linearize.h:686-735 | activation keeps chunks, representatives, tops and all sums of fees and sizes right |
| Forests.DeactivateConsistent | src/cluster_linearize.h:738-770 | deactivation does so too |
| Forests.ChunkIsTree | src/cluster_linearize.h:1262-1287 | a chunk of N transactions has exactly N-1 active dependencies |
| Merging.StepKeepsRun | src/cluster_linearize.h:868-883 | a merge by the merge rule keeps what a run of merges relies on: the chunks left behind ask for no merge, and no supporting line has dropped |
| Improving.UpRunStarts | src/cluster_linearize.h:886-904 | after a split, the upward merges of the top start such a run |
| Improving.MergeBackPick | src/cluster_linearize.h:886-904 | if the top depends on the bottom, the first merge picks the bottom |
| Improving.DownRunStarts | src/cluster_linearize.h:886-904 | once the upward merges have ended, the downward merges of the bottom start a run |
| Improving.ImproveEnds | src/cluster_linearize.h:550-556 | when both runs have ended the state is topological and no supporting line has dropped |
| Loading.OptimalChunk | src/cluster_linearize.h:514-523 | no ancestor-closed part of a chunk beats it, if no active dependency in it has a top of higher feerate |
| Loading.OptimalState | src/cluster_linearize.h:514-523 | in an optimal state no ancestor-closed set is above any supporting line of the chunks |
| Loading.LoadStarts | src/cluster_linearize.h:950-961 | loading the next transaction of an order starts a run of upward merges |
| Loading.LoadEnds | src/cluster_linearize.h:950-961 | when it ends, the transactions loaded so far form a topological state |
| Progress.SequenceEnd | src/cluster_linearize.h:872-883 | when a merge sequence stops, its chunk asks for no further merge and joins the queue, so that it needs no exemption any more from the rule that chunks which are not queued are optimal |
| Progress.ViolationsMerge | src/cluster_linearize.h:964-1004 | while `MakeTopological` works, every dependency that asks for a merge has one of its chunks queued |
| SpanningForest.SpanningForest.constructor | src/cluster_linearize.h:909-943 | every direct parent gives one dependency, all inactive, and every transaction is its own chunk |
| SpanningForest.SpanningForest.UpdateChunk | src/cluster_linearize.h:657-680 | exactly the tops that contain the given transaction change, by the given set |
| SpanningForest.SpanningForest.Activate | src/cluster_linearize.h:686-735 | the new state is the one that activation leads to, and it is consistent; the cost grows by the size of the merged chunk |
| SpanningForest.SpanningForest.Deactivate | src/cluster_linearize.h:738-770 | the new state is the one that deactivation leads to, and it is consistent; the cost grows by the size of the chunk taken apart |
| SpanningForest.SpanningForest.MergeChunks | src/cluster_linearize.h:774-808 | some dependency between the two chunks is activated, picked by counting |
| SpanningForest.SpanningForest.MergeStep | src/cluster_linearize.h:811-868 | the merge is one that the merge rule allows; if there is none, no dependency out of the chunk asks for a merge |
| SpanningForest.SpanningForest.MergeSequence | src/cluster_linearize.h:870-883 | merges are repeated until none is possible, and the merged chunk is queued |
| SpanningForest.SpanningForest.Improve | src/cluster_linearize.h:885-904 | a topological state stays topological, no supporting line drops, and every chunk not queued stays optimal |
| SpanningForest.SpanningForest.LoadLinearization | src/cluster_linearize.h:945-961 | any topological order is loaded into a topological state at least as good, by upward merges only |
| SpanningForest.SpanningForest.MakeTopological | src/cluster_linearize.h:963-1004 | ends with no inactive dependency whose child chunk has a feerate at or above that of its parent chunk |
| SpanningForest.SpanningForest.OptimizeStep | src/cluster_linearize.h:1023-1069 | returns false only if nothing is queued any more, and otherwise leaves a topological state at least as good |
| Linearizing.Optimize | src/cluster_linearize.h:1361-1371 | a topological state stays one and gets no worse, and ends optimal or with the cost at the limit |
| Output.GetLinearization | src/cluster_linearize.h:1071-1175 | from any topological state: every transaction once, parents before children, one chunk of the state after the other in order of non-increasing feerate |
| Linearizing.ClosedIff | src/cluster_linearize.h:201-222 | a set is closed under direct parents if and only if it is closed under all ancestors |
| Linearizing.OrderIff | src/cluster_linearize.h:201-222 | an order respects direct parents if and only if it respects all ancestors |
| Linearizing.Linearize | src/cluster_linearize.h:1334-1373 | the result is topological and at least as good as the order given; if reported optimal, no closed set is above its diagram and no order has a better one; it is optimal unless the cost has reached the limit, and the cost is that of activations and deactivations that lead from transactions apart to the state whose chunks are the result |
| Fixing.FixedTopological | src/cluster_linearize.h:1576-1606 | the result is a topological permutation of any order |
| Fixing.FixedSame | src/cluster_linearize.h:1576-1606 | a topological order stays as it is |
| Fixing.FixedKeepsOrder | src/cluster_linearize.h:1576-1606 | an element falls behind another one only if one of its ancestors is at that place or between the two |
| Fixing.FixLinearization | src/cluster_linearize.h:1577-1606 | the loop in place computes exactly that order |
| Passes.SwapInOrder | src/cluster_linearize.h:1536-1549 | swapping a group with one it does not depend on keeps the list in order |
| Passes.JoinLinked | src/cluster_linearize.h:1522-1535 | joining a group with one it depends on gives a connected group |
| PassGains.BubbleResult | src/cluster_linearize.h:1403-1414 | moving one group to its place keeps the list sorted and its groups connected and solid, and lowers no supporting line |
| PassGains.PassResult | src/cluster_linearize.h:1403-1419 | after a pass the groups are in order, and no prefix of the input is above them |
| TreePasses.TreeOptimal | src/cluster_linearize.h:1397-1400 | if what depends on any transaction forms a chain, no closed set is above the groups of a pass |
| TreePasses.OthersBelow | src/cluster_linearize.h:1401 | as long as nothing depends on the first transaction, the others are below the groups without it |
| PassResults.Mirror | src/cluster_linearize.h:1415-1419 | a set taken from the back with negated fees is as far above a feerate as its complement taken from the front |
| PassResults.PassTopological | src/cluster_linearize.h:1391-1419 | a pass in either direction writes back a topological permutation |
| PassResults.PassImproves | src/cluster_linearize.h:1394-1396 | and one whose diagram is nowhere below |
| PassResults.PostNotWorse | src/cluster_linearize.h:1374-1396 | both passes together do not lower the diagram |
| PassResults.PostConnected | src/cluster_linearize.h:1381-1382 | every chunk of the result is connected |
| PassShapes.TreeChains | src/cluster_linearize.h:1383-1384 | at most one child each, or at most one parent each, makes what depends on a transaction a chain |
| PassShapes.PostTreeOptimal | src/cluster_linearize.h:1383-1384 | on a tree of either kind no closed set is above the result and no order is better |
| PassShapes.PostMovedLeaf | src/cluster_linearize.h:1385-1389 | moving a leaf to the end, with the same or a higher fee, and postlinearizing gives a result at least as good as the order before |
| GroupLists.ListMerge | src/cluster_linearize.h:1522-1535 | the pointer updates of a merge represent the list with the two groups joined |
| GroupLists.ListSwap | src/cluster_linearize.h:1536-1549 | the pointer updates of a swap represent the list with the two groups exchanged |
| PostLinearizing.MergeSwapCycle | src/cluster_linearize.h:1508-1550 | the loop on the linked lists moves the new group exactly where moving it on plain lists does |
| PostLinearizing.BuildGroups | src/cluster_linearize.h:1487-1550 | after the loop over the linearization the entries represent the groups of the pass |
| PostLinearizing.WriteBack | src/cluster_linearize.h:1552-1572 | following the pointers back writes the concatenated groups, reversed in a backward pass |
| PostLinearizing.PostLinearize | src/cluster_linearize.h:1391-1574 | in place: topological, not worse, connected chunks, optimal on trees |
| Coins.AppendRing | src/coins.h:131-145 | flagging an entry puts it at the end of the doubly linked list |
| Coins.UnlinkRing | src/coins.h:180-187 | cleaning or destroying an entry takes it out, wherever it is in the list |
| CoinLayers.AddedBut | src/coins.cpp:72-104 | adding throws exactly if it may not overwrite and the cache has the coin unspent; the flags then stay right if and only if overwriting was allowed, or there was an entry, or the view below does not have the coin |
| CoinLayers.SpentOk | src/coins.cpp:133-153 | spending removes the coin from the view, whether the entry is erased or marked |
| CoinLayers.UncachedOk | src/coins.cpp:278-291 | forgetting an unflagged entry changes no view |
| CoinLayers.WriteOk | src/coins.cpp:186-247 | a layer takes a dirty entry of the layer above without throwing, and then shows its coin |
| CoinStacks.CoinStack.constructor | src/coins.cpp:37-43 | a database without caches shows its unspent coins |
| CoinStacks.CoinStack.Push | src/coins.cpp:37-43 | a new cache shows what is below it |
| CoinStacks.CoinStack.Pop | src/coins.h:360-381 | a destroyed cache takes its changes with it |
| CoinStacks.CoinStack.FetchCoin | src/coins.cpp:48-64 | fetching through all levels changes no view, and finds the coin if the view has it |
| CoinStacks.CoinStack.GetCoin | src/coins.cpp:66-70 | the lookup returns what the plain map has |
| CoinStacks.CoinStack.AccessCoin | src/coins.cpp:157-164 | so does access by reference, with an empty coin for a missing one |
| CoinStacks.CoinStack.HaveCoin | src/coins.cpp:166-169 | true exactly if the plain map has the coin |
| CoinStacks.CoinStack.AddCoin | src/coins.cpp:72-111 | exactly that key of the view on top changes, unless nobody can spend the output or the call throws; the flags stay right if and only if overwriting was allowed, or there was an entry, or the view below does not have the coin |
| CoinStacks.CoinStack.AddCoins | src/coins.cpp:122-131 | every output of a transaction that can be spent becomes a coin with its value, script, height and coinbase mark, and no other key changes, up to the first one that may not overwrite and that the cache has unspent, where it throws; flags are wrong afterwards exactly for the added outputs that hide a coin below; with checking for overwrites, or for a coinbase, neither ever happens |
| CoinStacks.CoinStack.SpendCoin | src/coins.cpp:133-153 | exactly that key is removed, the spent coin is handed out, and true is returned exactly if the view has the coin, or the cache an entry, or it lies on the database and that has one |
| CoinStacks.CoinStack.Uncache | src/coins.cpp:278-291 | no view changes, and an unflagged entry is gone |
| CoinStacks.CoinStack.BatchWrite | src/coins.cpp:186-250 | afterwards the view below is what the cache shows, for the database as for a cache, and all other caches are as they were |
| CoinStacks.CoinStack.Flush | src/coins.cpp:252-263 | only the view below changes, to that of the flushed cache, which is empty then; all other caches are as they were |
| CoinStacks.CoinStack.Sync | src/coins.cpp:265-276 | the same, and the entries of the cache are exactly its unspent coins, without flags; the check for leftover flags cannot fail |
| CoinStacks.CoinStack.GetBestBlock | src/coins.cpp:176-180 | the block of the nearest level that has one, and every level goes on reporting the same |
| CoinStacks.FlushedBlock | src/coins.cpp:248-254 | after a flush the level below reports the block of the flushed cache if and only if that had one, or the level below had none of its own that differs from what is below it |
| CoinStacks.FlushedNull | src/coins.cpp:248-254 | a stack whose lower cache reports another block after a flush than both reported before |
| CoinStacks.SpentTwice | src/coins.cpp:133-153 | spending the same coin of the database twice returns true both times |
| CoinStacks.CoinStack.SanityCheck | src/coins.cpp:319-350 | no assertion of the sanity check fails in any state that can be reached |
| CoinStacks.CheckEntries | src/coins.cpp:321-336 | only the five allowed combinations of flags occur, and usage and flagged entries add up |
| CoinStacks.CheckList | src/coins.cpp:337-347 | the list is doubly linked and ends after as many entries as it has |
| CheckQueues.StepInv | src/checkqueue.h:72-137 | every step of every thread keeps the invariant: counters count, every check is queued, in flight, finished or skipped, and a result is an outcome of this round |
| CheckQueues.RunsKeepInv | src/checkqueue.h:72-137 | it holds throughout every interleaving |
| CheckQueues.NeverNegative | src/checkqueue.h:58-63 | `nTodo` is never below the number of queued checks, and no counter is negative |
| CheckQueues.CleanedResult | src/checkqueue.h:84-88 | a local result left over from before never becomes the result of a round |
| CheckQueues.CompleteResult | src/checkqueue.h:97-106 | what `Complete` returns is nothing if and only if no check of the round fails, each then having run exactly once, and otherwise the outcome of one of them |
| CheckQueues.CompleteCorrect | src/checkqueue.h:166-169 | so in every run, and the next round starts from nothing |
| CheckQueues.AsleepMeansBusy | src/checkqueue.h:89-93 | while the master sleeps and was not notified, some worker has a batch in flight |
| CheckQueues.NeverStuck | src/checkqueue.h:72-137 | as long as `Complete` has not returned, some thread can go on without being woken up |
| CheckQueues.CompleteReturns | src/checkqueue.h:72-137 | in whatever order the threads go on, the number of steps without a wake-up is bounded, and when none is left `Complete` has returned |
| HeadersSyncs.BitAt | src/headerssync.cpp:192-203 | the commitment at a place in the queue is the one to the header of the height that it will be compared at |
| HeadersSyncs.BufferPop | src/headerssync.h:34-53 | a header kept without the hash of its predecessor is restored exactly |
| HeadersSyncs.CommitmentNext | src/headerssync.cpp:246-268 | the queue has a commitment for the next height exactly if a header was seen there, and it is that header's |
| HeadersSyncs.HeadersSync.ProcessSingleHeader | src/headerssync.cpp:174-210 | accepts exactly a permitted difficulty with room for a commitment, and adds its work |
| HeadersSyncs.HeadersSync.StoreCommitments | src/headerssync.cpp:136-172 | the message is accepted if it connects and all its headers are; redownload starts exactly if the work is enough |
| HeadersSyncs.HeadersSync.StoreRedownloaded | src/headerssync.cpp:212-275 | accepts exactly a header that connects, at a permitted difficulty, with the commitment of the same height unless there is enough work |
| HeadersSyncs.HeadersSync.TruePredecessor | src/headerssync.cpp:226-236 | the difficulty check uses the true predecessor if and only if the buffer has room, or nothing was stored, or the difficulties coincide |
| HeadersSyncs.StaleDifficulty | src/headerssync.cpp:226-236 | without a buffer, a run of messages that releases a header whose difficulty may not follow that of its predecessor |
| HeadersSyncs.HeadersSync.PopReady | src/headerssync.cpp:277-291 | headers are released in order, and as many stay as the buffer holds, or none if there is enough work |
| HeadersSyncs.HeadersSync.Finalize | src/headerssync.cpp:48-60 | the sync is over, and what was said of everything released still holds |
| HeadersSyncs.HeadersSync.Bounded | src/headerssync.cpp:188-206 | between messages there are never more commitments than the maximum nor more headers than the buffer holds |
| HeadersSyncs.HeadersSync.ProcessNextHeaders | src/headerssync.cpp:65-134 | for every message: success, the request for more and the next phase exactly as specified; all that was returned is a chained prefix of what was redownloaded, matches the first download, and has enough on top; with enough work everything stored has been returned, and otherwise everything but as much as the buffer holds; the final phase is never left |
| AddrTables.EmptyConsistent | src/addrman.cpp:109-125 | an empty manager is consistent |
| AddrTables.CheckedSizes | src/addrman.cpp:1074-1075 | the random order holds every address of the two tables once |
| AddrSteps.SwappedInv | src/addrman.cpp:432-454 | swapping two places of the random order keeps everything consistent |
| AddrSteps.DeletedInv | src/addrman.cpp:456-471 | so does deleting an address without references |
| AddrManager.AddrMan.constructor | src/addrman.cpp:109-125 | a new manager is consistent |
| AddrManager.AddrMan.Find | src/addrman.cpp:401-414 | finds an address exactly if it is known |
| AddrManager.AddrMan.ClearNew | src/addrman.cpp:473-489 | a slot of the new table is cleared, and an address that loses its last reference is deleted |
| AddrManager.AddrMan.MakeTried | src/addrman.cpp:491-548 | the address leaves all its new slots for its tried slot, with its statistics as they were; whoever had that goes back to the slot of the new table that its address and source say; nobody else changes but the one who had that one |
| AddrManager.AddrMan.AddSingle | src/addrman.cpp:550-624 | consistent; an unknown routable address is entered, with its source, services and penalized time, if and only if its slot is free or its holder is terrible or has more references, and is not known otherwise; a known one has its time and services updated, and gets the slot if and only if the time is news, it is not tried, has less than eight references, the draw is in its favour, and the slot is free or its holder terrible; all others keep their entries, but for the holder of the slot |
| AddrManager.AddrMan.Good | src/addrman.cpp:626-679 | consistent; the address moves to the tried table exactly if it is known, not tried yet, and its slot is free or need not be tested, and waits otherwise as long as there is room; its times and attempts are reset either way, and nothing else changes but what the move does |
| AddrManager.AddrMan.Add | src/addrman.cpp:681-691 | consistent; every announcement of the list does what a single one does, one after the other, and the result says whether any was inserted |
| AddrManager.AddrMan.Attempt | src/addrman.cpp:693-711 | consistent; exactly the last try changes, and the count of attempts if failures count and none was counted since the last success |
| AddrManager.AddrMan.Connected | src/addrman.cpp:877-894 | consistent; exactly the time changes, if it is more than twenty minutes later |
| AddrManager.AddrMan.SetServices | src/addrman.cpp:896-910 | consistent; exactly the services of the address change |
| AddrManager.AddrMan.ResolveOne | src/addrman.cpp:919-963 | whoever waits takes the slot, gives up, or goes on waiting, exactly by the times of the address that has the slot |
| AddrManager.AddrMan.ResolveCollisions | src/addrman.cpp:912-973 | consistent; all pending addresses are judged one after the other, each in the state that the ones before led to, with exactly the effect of the verdict; those that still wait are exactly the ones judged so, no tried slot becomes free, and a slot changes hands only to an address judged to replace its holder |
| AddrManager.AddrMan.SelectTriedCollision | src/addrman.cpp:975-1001 | for a pending address that is known, returns the holder of the slot it waits for and its last try, which there always is; one that is not known any more is dropped |
| AddrManager.AddrMan.GetAddr | src/addrman.cpp:812-851 | different addresses, each of the network and quality asked for, within both limits, and all that qualify unless one more would exceed a limit; only the random order changes |
| AddrChecks.CheckAddrman | src/addrman.cpp:1063-1166 | returns 0 if and only if there is a key and the state passes: every address is in exactly the slots that its flags and counts say, and all counters agree |
| AddrChecks.ConsistentPasses | src/addrman.cpp:1063-1166 | every consistent state passes |
| AddrChecks.PassedState | src/addrman.cpp:1063-1166 | a state that passes has both tables, all ranges and the random order right, and its counters if and only if every network that occurs has one |
| AddrChecks.MissingCounter | src/addrman.cpp:1154-1163 | a state that passes although the counter of a network is missing |
| BlockTrees.InvertLowestOneIs | src/chain.cpp:70 | turning the lowest 1 bit into a 0 is n & (n - 1) |
| BlockTrees.BlockIndex.AddBlock | src/chain.h:94-107 | a block on top of any other keeps the tree well formed |
| BlockTrees.BlockIndex.BuildSkip | src/chain.cpp:115-119 | the skip pointer leads to the ancestor at the skip height |
| BlockTrees.GetAncestor | src/chain.cpp:83-108 | following skip pointers finds the ancestor that following parents finds |
| BlockTrees.LastCommonAncestor | src/chain.cpp:153-178 | the result is on both branches, and they differ above it |
| BlockTrees.Chain.SetTip | src/chain.cpp:16-24 | every height holds the ancestor of the tip, although the loop stops where the chains meet |
| BlockTrees.Chain.FindFork | src/chain.cpp:50-59 | the highest block of the branch that is on the chain |
| BlockTrees.LocatorEntries | src/chain.cpp:26-43 | every entry is the ancestor a step below the one before, with steps that double after the tenth, down to the first block; so their number is logarithmic |
| Limbs.SumNumber | src/arith_uint256.h:117-127 | adding limbs with carries adds the numbers modulo the width |
| Limbs.NegatedNumber | src/arith_uint256.h:59-66 | complement plus one is the negation modulo the width |
| Limbs.DifferenceNumber | src/arith_uint256.h:129-133 | adding the negation of a number that is not greater subtracts it |
| Shifts.LeftNumber | src/arith_uint256.cpp:14-28 | the limbs of a left shift are the number times a power of two, modulo the width |
| Shifts.RightNumber | src/arith_uint256.cpp:31-45 | the limbs of a right shift are the number divided by a power of two |
| Bignums.Add | src/arith_uint256.h:117-127 | the loop in place computes that sum |
| Bignums.Increment | src/arith_uint256.h:155-162 | limbs turn over up to the first that does not |
| Bignums.Negate | src/arith_uint256.h:59-66 | the loop computes that negation |
| Bignums.Subtract | src/arith_uint256.h:129-133 | subtraction adds the negation |
| Bignums.ShiftLeft | src/arith_uint256.cpp:14-28 | multiplies by a power of two modulo the width, for any shift |
| Bignums.ShiftRight | src/arith_uint256.cpp:31-45 | divides by a power of two, for any shift |
| Bignums.CompareTo | src/arith_uint256.cpp:102-111 | comparing limbs from the top compares the numbers |
| Divisions.Bits | src/arith_uint256.cpp:156-168 | the position of the highest bit plus one |
| Divisions.SetBit | src/arith_uint256.cpp:92 | sets a bit of the quotient that is still clear |
| Divisions.Divide | src/arith_uint256.cpp:76-99 | for any width, the quotient rounded down; it throws exactly if the divisor is zero |
| Targets.OverflowExact | src/arith_uint256.cpp:189-191 | the overflow flag is set exactly if mantissa times 256^(size - 3) is 2^256 or more |
| Targets.SetCompact | src/arith_uint256.cpp:175-193 | the number modulo 2^256, with exact sign and overflow flags |
| Targets.GetCompact | src/arith_uint256.cpp:195-216 | the compact form of the number, with neither assertion failing |
| Targets.CompactKeepsBits | src/arith_uint256.cpp:195-216 | what is read back has as many bits, is no greater, and is less than one unit of the form smaller |
| Targets.CompactRoundTrip | src/arith_uint256.cpp:175-216 | for every 256-bit number and either sign the form reads back with that sign, unless it is zero, without overflow, no greater, with as many bits, and to the same form |
| Targets.GetBlockProof | src/chain.cpp:121-134 | 2^256 / (target + 1) for every valid target, 0 for any other; the division never throws |
| Digits.ConvertBack | src/base58.cpp:58-73 | changing the base there and back gives the same digits, if there is no leading zero |
| Digits.ConvertFits | src/base58.cpp:53-55 | how many digits a change of base needs at most |
| Base58.MulAddInPlace | src/base58.cpp:63-70 | one round of the loop multiplies the number in the buffer and adds a digit; no carry is left if the result fits |
| Base58.BytesFit | src/base58.cpp:53-69 | the decoding buffer is never too small |
| Base58.CharactersFit | src/base58.cpp:98-112 | the encoding buffer is never too small |
| Base58.EncodeBase58 | src/base58.cpp:89-127 | writes a '1' for each leading zero byte and the number of the rest in base 58 |
| Base58.DecodeBase58 | src/base58.cpp:40-87 | accepts exactly symbols with spaces around them, up to the limit, and returns the bytes they stand for |
| Base58.RoundTrip | src/base58.cpp:40-135 | an encoded byte string decodes to itself, and is accepted exactly if the limit leaves room for it |
| Base58.EncodeDecoded | src/base58.cpp:40-127 | what was decoded encodes to the string without the spaces around it |
| CheckCodes.StepInjective | src/bech32.cpp:178-214 | a step of the checksum can be undone |
| CheckCodes.CheckExactly | src/bech32.cpp:342-353 | exactly one sequence of six symbols brings the remainder to a given value |
| CheckCodes.BurstDetected | src/bech32.cpp:130-147 | two inputs that differ only within six symbols in a row have different remainders |
| RootCodes.PowersDiffer | src/bech32.cpp:39-41 | two powers below 1023 of an operator of order 1023 agree on zero only |
| RootCodes.ThreeUnknowns | src/bech32.cpp:172-175 | three unknowns whose sums under three different powers vanish to the orders 0, 1 and 2 are all zero |
| Syndromes.AtStep | src/bech32.cpp:185-193 | at a root of the generator, a step of the checksum multiplies the value of the remainder by the root and adds the symbol |
| Syndromes.ThreeDetected | src/bech32.cpp:138-143 | for any code whose generator has three powers of such a root in a row as roots, changing at most three symbols within 1023 changes the remainder |
| Gf1024.Multiples | src/bech32.cpp:89-109 | the bit formulas used for the multiples by 9 and 23 are the multiples in GF(32) |
| Gf1024.PowerSum | src/bech32.cpp:39-45 | powers of e multiply by adding their exponents |
| Gf1024.FieldLawful | src/bech32.cpp:39-41 | e has order 1023: it is a primitive element of GF(1024) |
| Bech32Roots.RootAtPower | src/bech32.cpp:169-175 | a power of e at which the generator vanishes is a root in the sense of the syndromes |
| Bech32Roots.FirstRoot | src/bech32.cpp:169-174 | e^997 is a root of the generator of Bech32 |
| Bech32Roots.SecondRoot | src/bech32.cpp:169-174 | e^998 is one |
| Bech32Roots.ThirdRoot | src/bech32.cpp:169-174 | e^999 is one |
| Bech32Roots.ThreeChanges | src/bech32.cpp:138-175 | two inputs of Bech32 that differ, but in at most three symbols within 1023, have different remainders |
| Bech32Words.CodeLawful | src/bech32.cpp:138-150 | the generator of Bech32 is one to which these theorems apply |
| Bech32Words.PackStep | src/bech32.cpp:194-213 | the step on packed words is the step on remainders |
| Bech32Words.PolyMod | src/bech32.cpp:130-216 | the loop computes, packed into a word, the remainder of the input with a one in front |
| Bech32Texts.CheckCharacters | src/bech32.cpp:287-309 | lists exactly the characters that are not printable or of the other case than the first letter; none exactly if the string has no mixed case |
| Bech32Texts.JoinedFormed | src/bech32.cpp:374-391 | a string put together is well formed exactly if its human-readable part is not empty and printable and it is not too long, and only at its own separator |
| Bech32Strings.VerifiesExactly | src/bech32.cpp:327-353 | the last six symbols verify exactly if they are the checksum of the rest |
| Bech32Strings.ChangesDetected | src/bech32.cpp:130-147 | changing one symbol, or any within six in a row, never verifies for the same encoding |
| Bech32Strings.ThreeChangesDetected | src/bech32.cpp:138-143 | changing at most three symbols within 1023 never verifies for the same encoding |
| Bech32Strings.ThreeCharactersApart | src/bech32.cpp:138-143 | two accepted strings of the same encoding with the separator in the same place that differ in at most three characters behind it, within 1023, decode to the same |
| Bech32Strings.ExpandInjective | src/bech32.cpp:312-323 | different human-readable parts have different symbols |
| Bech32Strings.HrpChangeDetected | src/bech32.cpp:312-339 | changing one character of the human-readable part, and at most one symbol, all within 1023, never verifies for the same encoding |
| Bech32Strings.OneCharacterApart | src/bech32.cpp:374-400 | two accepted strings of the same encoding with the separator in the same place that differ in at most one character before it decode to the same |
| Bech32Strings.VerifyChecksum | src/bech32.cpp:327-339 | finds the encoding for which the symbols verify, if there is one |
| Bech32Strings.CreateChecksum | src/bech32.cpp:342-353 | computes that checksum |
| Bech32Strings.Encode | src/bech32.cpp:358-371 | the human-readable part, the separator, the symbols and their checksum |
| Bech32Strings.Decode | src/bech32.cpp:374-400 | decodes a string exactly if it is accepted, and then to what it says |
| Bech32Strings.AcceptedOnce | src/bech32.cpp:374-400 | a string says one thing at most |
| Bech32Strings.DecodeEncoded | src/bech32.cpp:356-400 | an encoded string is read back as what was encoded if and only if it is readable, and is rejected otherwise |
| Bech32Strings.EncodeDecoded | src/bech32.cpp:356-400 | what is read from a string encodes to that string in small letters |

## Left out

- Termination of the optimiser without a cost limit: `Linearize` is bounded by its iteration limit, and only that is used.
- `GetReducedChildren`, connected components, `AppendTopo`, `Compact` and the copying constructor of the dependency graph: they would only add easier members.
- `SanityCheck` and `GetDiagram` of the spanning-forest state: the first is implied by consistency, the second repeats what is proved of the output.
- The statistics of random tie-breaking.
- `FeeFrac` evaluation at a size, its 128-bit fallbacks, and overflow.
- CoinStacks.CoinStack.AddCoin: works on the cache on top, as changing a view below another cache would change what that one shows.
- Coin caches as separate objects with a base pointer: they are the layers of one stack object, so `SetBackend` and two caches on one base are not captured.
- A database that fails or crashes between partial batches, `EmplaceCoinInternalDANGER`, the pool allocator and the reallocation of the cache.
- The memory that a script takes is an arbitrary function of the script, not of the capacity of its buffer.
- Stopping the check queue, and the creation and joining of its threads.
- Block hashes, the salted hash, the work of a difficulty and the permitted transitions are arbitrary functions; the clock, the locator and the log are not modelled.
- The address manager: `Select`, whose loop ends only with probability one, the serialization and the asmap. The hash functions that choose buckets and positions are arbitrary functions, and the tables are maps from slots. All fields are in one record.
- The block index: `FindEarliestAtLeast`, and how many steps the skip pointers save.
- Big numbers: multiplication, the bitwise operators, decrement, hexadecimal text and conversion to floating point.
- Base58 with a hash as checksum, and sizes that exceed the range of `int`.
- Bech32: `LocateErrors`, and the detection of four errors within 89 characters, which rests on a search through all of them.
- Memory footprint, and everything that reads or writes files or the network.
