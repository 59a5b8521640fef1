# OHIE with transaction ageing: a verified model

OHIE runs many longest chains side by side and confirms their blocks by rank. On top of it, this
system ages transactions: a transaction that no conflicting one has disturbed for a while is promised before any
block confirms it. The project models the logic of one node as classes and methods that change their state in
place, and many nodes as step systems, and proves what the node and the protocol are for.

| Part | Modules |
|---|---|
| headers, paths, what a node holds | `Headers`, `Holdings` |
| rank order, agreement, finality, progress | `RankOrder`, `Progress`, `Protocol`, `Runs`, `ShortRuns` |
| block trees, orphans and indexes of one node, on linked nodes | `SearchTrees`, `BlockForest`, `BlockLinks`, `BlockIndex`, `BlockJoins`, `BlockSteps`, `BlockDrops`, `BlockPaths`, `BlockStart`, `BlockStore` |
| many block stores as one run of the protocol | `NodeHistories` |
| the order in which blocks reach commit_block | `CommitOrder` |
| transaction ageing, wake-ups, turns, mempools | `Ageing`, `AgeingNode`, `Wakeups`, `Turns`, `Mempools`, `Causality` |
| conflicting promises in a timed network | `AgeingNetwork`, `AgeingInvariant`, `AgeingSafety`, `AgeingRuns` |
| Merkle proofs, block names, mining, the wire format | `Merkle`, `Numerals`, `Fields`, `Messages`, `Mining` |
| stream framing, ping flood | `Framing`, `PingFlood` |

The block store is a class over heap nodes that are linked twice, as a search tree by hash and as a block tree.
A ghost value, the forest, says what the pointers spell out; the forest is determined by the set of held headers.
Every operation of the class that changes what the node holds, has in full or has committed is proved to be a step
of the protocol on the node's view (a round of asking is a series of evictions). The class knows one pool, of all
headers of the whole run, while the protocol's pool grows block by block; `NodeHistories` proves that the histories
of the views of any number of block stores, in any interleaving, are runs of the protocol, so the theorems about runs
speak about what the class does. The ageing layer has the same shape: `AgeingNode.Node`
changes its tables in place, each method is tied to a function of the old tables, and the theorems are about
those functions, over every sequence of operations and every run of a timed network.

Premises. A hash determines its header, headers come from `mine_new_block`, and fewer than 2^32 blocks are mined
in a run (so the 32-bit ranks do not wrap). sha256 is any function with 64 lower-case hexadecimal digits; nothing
assumes that it has no collisions. What is delivered to a block store was mined before. In the timed network the
delivery bound is D, every node hears every relay, and no node starts anew with a key of which it has a record that
is not promised: it does not create a transaction over such a record (a node numbers its own clients' transactions,
so this means that nobody else sends with their addresses first), and its own blocks do not commit a transaction
ahead of its turn whose conflict record would go with it (received blocks never do). `AgeingRuns` has a run into
conflicting promises for each of these. In the ping flood each ping is handled in a read of its own (the source
ignores a second ping of one sender in the same read).

What the proofs show to differ from what one may expect:

- A commit pass filters by `next_rank`, not by `rank`.
- No node ever sorts by (`next_rank`, chain), the order in which agreeing nodes list the same blocks
  (`RankOrder.Agreement`). A pass hands blocks to commit_block chain by chain and from the end of each chain down; that
  is the order by rank exactly if it hands over at most one block of each chain and their next ranks do not fall along
  the chains (`CommitOrder.PassInOrder`). Two stores with the same blocks and the same view can hand them over in
  incomparable orders, because one made a pass more (`CommitOrder.TwoPassesOrOne` says exactly when,
  `CommitOrder.StoresDiffer` is an input). What stores with the same bar and full blocks agree on is the set of blocks
  handed over, each once (`Runs.SameBarSameCommits`, `CommitOrder.StoresHandOverSame`).
- Extending every chain by T+1 blocks is not enough for progress, T+2 is: for every T there is a run in which T+1
  leave the block unconfirmed (`ShortRuns.OneBlockLessIsTooFew`).
- Registrations and look-ups of waiting transactions use the printed form of a number, the tables use the text as it
  was sent. A transaction that misses its dependency on arrival and whose own number is written differently, such as
  "07", is lost at once (`Wakeups.VerifiedLosesNone`). A dependency written differently is registered under its own
  text; its promise then loses the transaction exactly if that becomes due by it and is neither the sender's next one
  as printed nor registered under the printed text (`Wakeups.PromiseForgets`). If its own turn comes later
  and its own number is printed, that still wakes it.
- Two ways to write one number are two keys but one turn: two nodes can promise different transactions of one sender
  and number, whatever the threshold (`AgeingRuns.TwoSpellings`).
- When a promise looks up a registered transaction that still misses its dependency, it registers the next key of the
  promised sender there, and not the key of that transaction (`Mempools.PromiseRegisters`).
- A received block that ranks above the end of its chain counts as buried nearly 2^32 deep, so nothing in it is
  rejected for having been disturbed (`Ageing.DisturbedInBlock`).
- The promise of a dependency moves the transactions that wait for it to the mempool without looking at the turn of
  their own senders (`Turns.PromisePutsAhead` says exactly when). The node's own blocks can therefore commit a
  transaction ahead of its turn (`Turns.AheadInMempool`); received blocks cannot (`Turns.ReceivedBlocksAreInTurn`). Such
  a commit clears the registrations of those who wait for it without counting as promised, so they are lost
  (`Turns.AheadLosesWaiters`), and it takes the conflict record of its key along, so the node accepts a conflicting
  transaction of the key as new and can promise it (`AgeingRuns.CommittedAhead`).
- AT >= D is exactly what rules out conflicting promises of one key, and AT >= 2D exactly what keeps every node from
  even accepting a conflict with a promised key (`AgeingRuns.ThresholdsAreExact`); the configuration has AT = 4D.
- With AT >= 2D a conflict with a promised key therefore comes from outside and is never relayed. The threshold
  AT - 2D on recorded ages is right exactly as long as the promising node sees the conflict at most D + 1 after the
  disturbed node (`AgeingRuns.ThresholdIsExact`); an outside sender that withholds it longer leaves any smaller age,
  down to 0 (`AgeingRuns.RecordedAges`).
- Creating a transaction overwrites the node's ageing record of its key. Over a promised key this is harmless; over an
  ageing record or a conflict record two nodes can then promise different transactions of one key
  (`AgeingRuns.CreatedAgain`, `AgeingRuns.CreatedOverConflict`).
- A header field of 2^31 or more does not survive the wire (`Messages.HeaderRoundTrip`).
- A frame that its handler refuses is handed over again with the next read if it came last in its read
  (`Framing.RefusedFramesComeAgain`).
- A transaction without explicit dependency is rejected in every received block as long as the all-zero sender
  has no promise in turn, because the check does not exempt the empty dependency (`Causality.EmptyDependencyInBlock`).

## Model

| member | source | states |
|---|---|---|
| RankOrder.Agreement | code/Blockchain.cpp:925-992 | two views whose partial chains are prefix-comparable have eligible blocks whose listings by (next_rank, chain), which no node makes, are prefixes of one another |
| RankOrder.LowerBarDecides | code/Blockchain.cpp:954-974 | the view with the lower bar has eligible exactly the other view's eligible blocks below that bar |
| RankOrder.Finality | code/Blockchain.cpp:925-992 | when partial chains only grow, the bar never falls, nothing new becomes eligible below an earlier bar, and the order only grows at its end |
| RankOrder.OrderExists | code/Blockchain.cpp:963-992 | the eligible blocks of any view can be listed in strict (next_rank, chain) order |
| RankOrder.RanksClimb | code/miner.cpp:131-133 | next_rank strictly climbs along every path |
| RankOrder.BarIsReached | code/Blockchain.cpp:930-955 | the bar is the initial all-ones value or the next_rank of some partial end |
| RankOrder.BarIsLow | code/Blockchain.cpp:930-955 | the bar is at most the next_rank of every partial end |
| Progress.BoundedProgress | code/miner.cpp:69-88 | once every chain of a view has been extended by T+2 blocks mined in view of b, the bar is above b and b is eligible |
| ShortRuns.OneBlockLessIsTooFew | code/miner.cpp:69-133 | for every T, a run in which both of two chains have been extended by T+1 blocks in view of b, and b is not eligible |
| Protocol.TrailingIsHighest | code/miner.cpp:69-86 | the trailing chain is the first one with the largest next_rank |
| Protocol.MineKeepsPool | code/miner.cpp:131-136 | a mined header keeps the pool linked, ranked and without 32-bit wrap |
| Protocol.DeliverKeepsNode | code/Blockchain.cpp:524-623 | receiving a header keeps a deepest block for every chain of the node |
| Protocol.EvictKeepsNode | code/Blockchain.cpp:758-776 | giving up an orphan tree moves no longest chain |
| Protocol.StepKeepsOk | code/Blockchain.cpp:524-992 | mining, delivery, eviction, full blocks and commit passes of any node keep the invariant of all nodes |
| Protocol.RunOk | code/Blockchain.cpp:524-992 | the invariant holds in every state of every run of any number of nodes |
| Runs.AgreementOverRuns | code/Blockchain.cpp:925-992 | the same agreement of listings for any two nodes at any two times of any run |
| Runs.FinalityOverRuns | code/Blockchain.cpp:925-992 | finality for any node between any two times of any run in which its partial chains grew |
| Runs.CommittedWasEligible | code/Blockchain.cpp:973-979 | whatever a node has committed was eligible in its own view at some earlier time |
| Runs.CommittedEverywhere | code/Blockchain.cpp:973-979 | a block committed anywhere is eligible at every node whose bar has passed it |
| Runs.CommitCatchesUp | code/Blockchain.cpp:973-979 | the next commit pass of a node whose bar has passed such a block commits it, if it is full there |
| Runs.CommitIsExact | code/Blockchain.cpp:963-988 | after a pass that finds everything committed before below its bar, exactly the full blocks that may be confirmed are committed |
| Runs.SameBarSameCommits | code/Blockchain.cpp:963-988 | after such passes with the same bar, nodes that have the same of these blocks in full have committed the same set |
| Runs.ProgressOverRuns | code/miner.cpp:69-133 | bounded progress in every state of every run |
| NodeHistories.StepStable | code/Blockchain.cpp:524-992 | a node that holds only headers mined so far makes the same steps in the pool so far as in the pool of the whole run |
| NodeHistories.HistoryIsRun | code/Blockchain.cpp:524-992 | the views of any number of block stores, changed one at a time as the class says, are a run of the protocol |
| NodeHistories.StoresAgree | code/Blockchain.cpp:925-992 | the same agreement of listings for any two block stores at any two times |
| CommitOrder.PassHandsOver | code/Blockchain.cpp:963-988 | a pass appends exactly the blocks it commits and did not before, chain by chain, and on each chain from the highest next_rank down |
| CommitOrder.CommittedOnTime | code/Blockchain.cpp:970-981 | a block of a partial chain that was not handed over before is handed over exactly if it is full, not genesis, below the bar and mined before now by its miner's clock |
| CommitOrder.PassInOrder | code/Blockchain.cpp:963-988 | what a pass appends is in order of (next_rank, chain) if and only if it is at most one block of each chain and next ranks do not fall along the chains |
| CommitOrder.TwoPassesOrOne | code/Blockchain.cpp:963-988 | two passes and the later one alone hand over the same blocks, in the same order if and only if all that the first hands over comes sooner in the walk than the rest; otherwise neither log is a prefix of the other |
| CommitOrder.SameChainTwice | code/Blockchain.cpp:963-988 | in particular the logs are incomparable when both passes commit on one chain, the later one further up |
| CommitOrder.StoresDiffer | code/Blockchain.cpp:963-988 | an input: two stores with the same view and blocks hand two blocks over in different orders |
| CommitOrder.StoresHandOverSame | code/Blockchain.cpp:973-981 | stores that have committed the same set have handed over the same blocks, each once |
| Holdings.RootAfterAdd | code/Blockchain.cpp:306-386 | a new header hangs the tree that waited for it under its parent's tree and moves no other tree |
| Holdings.RootIsHangsFrom | code/Blockchain.cpp:306-386 | the root of a block's tree is the first block up its path that is missing, or genesis |
| Holdings.AnchoredIffAncestryHeld | code/Blockchain.cpp:524-623 | a block is in the main tree exactly when its whole ancestry is held |
| Holdings.DeepestKept | code/Blockchain.cpp:581-593 | the update of deepest with the deepest block below the new one keeps it deepest of the whole main tree |
| SearchTrees.FindBlockByHash | code/Blockchain.cpp:55-66 | finds what the search-tree shape says |
| SearchTrees.LookupFinds | code/Blockchain.cpp:55-66 | in an ordered tree the search finds a node exactly if its hash is there |
| SearchTrees.InsertOneNode | code/Blockchain.cpp:88-114 | relinks the pointers to the tree with the node at its ordered place |
| SearchTrees.InsertSubtreeByHash | code/Blockchain.cpp:116-130 | moves every node of one tree into the other, in place |
| SearchTrees.InsertBlockOnlyByHash | code/Blockchain.cpp:68-84 | adds a node at its ordered place, left of a node that has the same hash |
| SearchTrees.PutLowInOrder | code/Blockchain.cpp:68-84 | from left to right, the node comes right before the first one that does not have a smaller hash, also in a tree that has its hash already |
| SearchTrees.PutLowOrdered | code/Blockchain.cpp:68-84 | the tree stays ordered by that exactly if the hash is new |
| SearchTrees.PutAllNodes | code/Blockchain.cpp:116-130 | the merged tree is ordered, keeps its top and has exactly the nodes of both |
| BlockForest.HangOk | code/Blockchain.cpp:336-382 | hanging a tree keeps all trees disjoint, ordered and rooted right, all child lists exact, and loses no node |
| BlockForest.DropOk | code/Blockchain.cpp:766-769 | giving up one orphan tree leaves all others right |
| BlockForest.OneTree | code/Blockchain.cpp:336-382 | every node is in exactly the search tree of its root |
| BlockForest.TreeIsComponent | code/Blockchain.cpp:306-386 | a tree is its root and exactly the held headers whose ancestry leads to it |
| BlockForest.HeldDetermines | code/Blockchain.cpp:524-623 | forests with the same held headers have the same trees and child lists |
| BlockLinks.AppendChild | code/Blockchain.cpp:184-194 | walks the sibling list and appends the node at its end |
| BlockLinks.HangTree | code/Blockchain.cpp:541-570 | merging a subtree and linking its root leaves pointers that spell out the forest with that tree hung |
| BlockLinks.AddLeaf | code/Blockchain.cpp:165-197 | adding a new node by its parent leaves pointers that spell out the forest with that leaf |
| BlockIndex.LookupInTree | code/Blockchain.cpp:55-66 | a search in a tree finds a block exactly if the block's ancestry leads to the root of that tree |
| BlockIndex.FindMaxDepth | code/Blockchain.cpp:502-517 | returns a block below r that is at least as deep as every block below r; of several, the first one along the child lists |
| BlockPaths.Discard | code/Blockchain.cpp:936-939 | T steps up from an end reach null exactly if the chain is too short, and otherwise the end of the partial chain |
| BlockPaths.UpToIsConfirmed | code/Blockchain.cpp:963-992 | the blocks taken chain by chain and tip to root are exactly those the protocol confirms |
| BlockPaths.LogIsMarked | code/Blockchain.cpp:974-979 | the blocks handed to commit_block are the full blocks marked committed, each once |
| BlockStore.Blockchain.constructor | code/Blockchain.cpp:424-466 | a node with its genesis blocks satisfies every invariant and has the protocol's initial state |
| BlockStore.Blockchain.AddReceivedBlock | code/Blockchain.cpp:524-623 | keeps every invariant and is the protocol's delivery step; an end is only replaced by a strictly deeper block; added iff the header was not held; the parent is asked for iff the block is not in the main tree afterwards; other chains and existing index entries stay |
| BlockStore.Blockchain.LinkIntoMain | code/Blockchain.cpp:535-577 | a block whose parent is in the main tree joins it with all that waited for it; exactly the connected blocks that are not full enter the fetch index |
| BlockStore.Blockchain.ConnectTree | code/Blockchain.cpp:541-570 | the orphan tree waiting for the block becomes part of the main tree and leaves the orphan list |
| BlockStore.Blockchain.AddBlockByParentHash | code/Blockchain.cpp:165-197 | a new leaf joins the tree of its parent; trees stay right and only this header joins |
| BlockStore.Blockchain.AddBlockToIncomplete | code/Blockchain.cpp:306-386 | in all four cases the trees and orphan lists stay right and exactly this header joins |
| BlockStore.Blockchain.StartOrphanTree | code/Blockchain.cpp:336-348 | neither end known: a two-node tree rooted at the missing parent is listed last, not asked for yet |
| BlockStore.Blockchain.LeafOfOrphan | code/Blockchain.cpp:349-352 | parent known: the block becomes a leaf of the parent's orphan tree |
| BlockStore.Blockchain.RootAbove | code/Blockchain.cpp:353-361 | child known: the missing parent becomes the root above the child's tree, with its request counters reset |
| BlockStore.Blockchain.MergeOrphans | code/Blockchain.cpp:362-382 | both known: the child's tree joins the parent's tree and its list entry goes |
| BlockStore.Blockchain.IsInIncomplete | code/Blockchain.cpp:273-287 | true exactly if the header is already held as an orphan |
| BlockStore.Blockchain.FindIncompleteBlock | code/Blockchain.cpp:289-303 | finds the node of a block exactly if it is in an orphan tree of the chain |
| BlockStore.RemoveOneChain | code/Blockchain.cpp:235-257 | the list without the entry of the given tree |
| BlockStore.Blockchain.AddSubtreeToReceivedNonFull | code/Blockchain.cpp:480-499 | adds exactly the blocks below b that are not full, and counts each once |
| BlockStore.Blockchain.UpdateDeepest | code/Blockchain.cpp:581-593 | the end of the chain is a deepest block of the main tree again, and moves only if a deeper one was connected, to the first of these along the child lists |
| BlockStore.Blockchain.AddMinedBlock | code/miner.cpp:144-158 | the node's own block is a new node with its mining time, held, full and the end of its chain; every invariant is kept |
| BlockStore.Blockchain.AddBlockByParentHashAndChainId | code/Blockchain.cpp:745-755 | the block joins as a leaf and becomes the end of its chain |
| BlockStore.Blockchain.ReceiveFullBlock | code/process_buffer.cpp:336-466 | marks the block full, and takes it off the fetch index, exactly if it is in the index and all checks pass; its times are reset exactly if the transactions are good, and time_mined is then the miner's; no commit is undone; every invariant is kept |
| BlockStore.Blockchain.SetBlockFull | code/Blockchain.cpp:829-839 | the block leaves the index, is full, and received = indexed + processed still holds |
| BlockStore.Blockchain.GetIncompleteChainHashes | code/Blockchain.cpp:758-776 | for every entry asked for at a time not after now: its root is asked for exactly if now - last_asked > wait and no_asks < limit, its tree is given up exactly if the wait is over and no_asks >= limit, and a remaining entry has no_asks one higher and last_asked == now exactly if it was due; all in list order; the view loses exactly the headers of the trees given up, which is a series of evictions |
| BlockDrops.AskingRound | code/Blockchain.cpp:758-776 | the same for the round itself, with the roots of the trees given up |
| BlockDrops.AskingWraps | code/Blockchain.cpp:764 | an entry asked for at a later time than now counts as due unless the wait is nearly 2^64 |
| BlockStore.Blockchain.DropOrphan | code/Blockchain.cpp:766-768 | giving up a tree is the protocol's eviction step and keeps every invariant |
| BlockStore.Blockchain.GetNonFullBlocks | code/Blockchain.cpp:778-805 | for every index entry asked for at a time not after now: it is asked for only if now - last_asked > wait, and if the wait is over it is left out only when smaller hashes reach the limit; it is renewed exactly if asked for; the order is ascending, and nothing is cleaned up because the index is exact |
| BlockDrops.DueIs | code/Blockchain.cpp:784 | an index entry is due exactly if now - last_asked > wait, in 64-bit arithmetic |
| BlockStore.Blockchain.FindConfirmBar | code/Blockchain.cpp:930-955 | the bar of the view; stops exactly if some chain has no partial chain |
| BlockStore.Blockchain.UpdateBlocksCommitedTime | code/Blockchain.cpp:925-992 | is the protocol's commit step; the log gains exactly the full non-genesis blocks of partial chains with next_rank below the bar and time_mined < now, chain by chain and tip to root, none ever twice; exactly these get the commit time now |
| BlockStore.CommitsAreCounted | code/Blockchain.cpp:975-979 | commited_total is the number of full non-genesis blocks marked committed, which are those handed to commit_block |
| BlockStore.ValidIsNodeOk | code/Blockchain.cpp:581-593 | the class invariant implies the node invariant of the protocol: deepest[c] is deepest in main tree c |
| BlockStore.DeliveryOrderDoesNotMatter | code/Blockchain.cpp:524-623 | two nodes that hold the same headers have the same trees and child lists |
| BlockStore.AnyOrderHoldsTheSame | code/Blockchain.cpp:524-623 | deliveries of the same set of headers, in any order and multiplicity, end with the same held headers |
| AgeingNode.Node.VerifyTransaction | code/transactions.cpp:264-344 | is_new exactly for a well-formed key that is neither promised, ageing nor disturbed; it then starts ageing; a different transaction for an ageing key ends its ageing, and the record keeps the first one with start and end; anything else changes nothing |
| AgeingNode.Node.CheckDependencies | code/transactions.cpp:184-205 | registers under a missing explicit dependency, once; true exactly if the dependency is empty or promised and it is the sender's turn |
| AgeingNode.Node.NotifyDependencies | code/transactions.cpp:515-553 | re-checks the sender's next transaction, then the registered ones against the promised sender's turn, then clears the registrations |
| AgeingNode.Node.PromiseTransaction | code/transactions.cpp:555-569 | advances the sender only in turn, notifies, and makes the key the last promised one |
| AgeingNode.Node.AgingPass | code/transactions.cpp:585-606 | one pass over the ageing table, the tables changing under way |
| AgeingNode.Node.AgeKey | code/transactions.cpp:585-606 | a key is promised and stops ageing exactly if it is older than AT, misses no dependency and is its sender's turn |
| AgeingNode.Node.CommitTransaction | code/transactions.cpp:703-722 | one transaction of a committed block: unless promised before it is promised, in turn or not, and its own conflict record goes |
| AgeingNode.Node.CreateTransaction | code/transactions.cpp:641-668 | the next number of the client, depending on the last promised key; it starts ageing and is queued in the mempool if its dependency is met and it is its turn, and as pending otherwise; the client's counter advances |
| AgeingNode.Node.RemoveFromMempool | code/transactions.cpp:366-370 | drops the first transaction of the key |
| AgeingNode.Node.VerifyTransactionFromBlock | code/transactions.cpp:376-440 | the tables afterwards; for 32-bit ranks, accepted exactly if well formed, in turn or earlier, the dependency promised, and, with a conflict record of its own that lasted at least AT - 2D, last_rank - rank >= T_DISCARD, where a rank above last_rank counts as 2^32 less |
| Ageing.DisturbedInBlock | code/transactions.cpp:122-132 | a transaction with a conflict record of its own is accepted in a block exactly if it passes the other checks and the record is younger than AT - 2D or the block is buried T_DISCARD ranks deep; a rank above the end of the chain counts as deep |
| Ageing.UndisturbedInBlock | code/transactions.cpp:390-424 | any other transaction is accepted in a block exactly if it passes the other checks |
| Wakeups.NoLostWakeUp | code/transactions.cpp:184-205 | whatever the operations and texts, no pending transaction is ever forgotten if every operation registers what it makes pending under its key and forgets nothing that it promises; and only if, where every monitor pass looks at one key at most, which leaves out no behaviour (PassIsKeyByKey) |
| Wakeups.PassIsKeyByKey | code/transactions.cpp:585-606 | a pass of the ageing monitor is the same as looking at its keys one by one |
| Wakeups.PromiseForgets | code/transactions.cpp:515-558 | whatever the texts, which pending transactions a promise loses: in turn, those that become due and are neither the next one as printed nor registered under the printed key; ahead of the turn, those that wait for its key |
| Wakeups.PromiseLosesNone | code/transactions.cpp:515-558 | so a promise loses no wake-up if and only if there is no such transaction |
| Wakeups.OnlyOddIsForgotten | code/transactions.cpp:515-540 | in turn, what is lost depends on the promised number or is the next one of its sender, and is spelled differently from the printed form |
| Wakeups.VerifiedLosesNone | code/transactions.cpp:184-312 | receiving loses no wake-up if and only if the transaction is not a new one that misses its dependency, is spelled differently and is not registered under its own text |
| Wakeups.CommittedLosesNone | code/transactions.cpp:703-722 | a transaction committed by a block loses no wake-up if and only if it was promised before or its promise forgets none |
| Wakeups.PrintedTextsWakeUp | code/transactions.cpp:184-205 | after any operations with printed texts and commits in turn, every pending transaction is registered under its missing dependency or out of its sender's turn |
| Wakeups.OddSpellingIsLost | code/transactions.cpp:184-190 | promising a dependency that was spelled differently loses a fresh dependent of another sender exactly if that is its sender's first |
| Wakeups.OddKeyIsLost | code/transactions.cpp:184-190 | a fresh transaction with a missing dependency is lost on arrival exactly if its own number is not spelled as printed |
| Causality.PromisesAreCausal | code/transactions.cpp:555-606 | after any operations, next_seqs[a] is n exactly when a's numbers 0 to n-1 were promised in turn, in order, and every ageing promise came in turn and after its explicit dependency |
| Causality.AgeingPromisesOnce | code/transactions.cpp:585-606 | two ageing promises of one sender have growing numbers, so no key is promised by ageing twice |
| Causality.CreatedDependsOnLast | code/transactions.cpp:555-569 | after any operations, a created transaction depends on the key promised last, and on nothing before the first promise |
| Causality.CreatedInOrder | code/transactions.cpp:641-668 | a client's created transactions are numbered 0, 1, 2 and so on |
| Turns.ReceivedBlocksAreInTurn | code/transactions.cpp:396-404 | a transaction accepted in a received block is in turn or earlier whenever the block is committed |
| Turns.PromiseForwards | code/transactions.cpp:533-551 | a promise moves a pending transaction to the mempool ahead of its sender's turn if and only if it is registered under the promised key as printed and its dependency is met |
| Turns.PromisePutsAhead | code/transactions.cpp:533-551 | so a promise brings a transaction into the mempool ahead of its turn if and only if there is such a pending transaction |
| Turns.AheadInMempool | code/transactions.cpp:546-549 | an input: a later transaction of one sender, depending on the first one of another, is in the mempool before its turn |
| Turns.AheadLosesWaiters | code/transactions.cpp:552-558 | committing it then loses a transaction that waits for it |
| Mempools.ReceivedIsQueued | code/transactions.cpp:302-313 | a new transaction goes to the end of the mempool if its dependency is empty or promised and it is its sender's turn, or its key is pending already, and becomes pending otherwise; any other one changes neither |
| Mempools.CreatedIsQueued | code/transactions.cpp:658-664 | the same for a created one, which replaces what is pending under its key |
| Mempools.CheckRegisters | code/transactions.cpp:184-205 | a dependency check puts the printed key at the end of the registrations of a missing explicit dependency, once, and changes nothing else |
| Mempools.PromiseAppends | code/transactions.cpp:515-553 | a promise appends to the mempool the sender's next transaction and then the registered ones in order, each once, and only if pending with its dependency met |
| Mempools.PromiseRegisters | code/transactions.cpp:515-553 | a promise clears the registrations of its key; under a dependency that a looked-up transaction still misses it registers the promised sender's next key, not the key of that transaction |
| Mempools.StaysInHand | code/transactions.cpp:264-371 | conservation: a transaction in the mempool or the pending table stays in one of them through any operations, as long as no block shows its key and its key is not created again |
| Mempools.InHandWasBrought | code/transactions.cpp:264-313 | and every transaction in hand was received as new or created at some earlier time |
| Mempools.SeenIsTakenOut | code/transactions.cpp:355-371 | a sound transaction of a received block goes out of the pending table if its key is there, and otherwise the first one of its key goes out of the mempool |
| Mempools.DropFirstDrops | code/transactions.cpp:366-370 | exactly the first transaction of the key is erased |
| Mempools.OldIsRegistered | code/transactions.cpp:585-606 | the monitor registers an old transaction that still misses its dependency and leaves younger ones alone |
| Causality.DependencyInBlock | code/transactions.cpp:172-177 | after any operations, a dependency counts as promised exactly if its number was promised in turn, under whatever spelling |
| Causality.EmptyDependencyInBlock | code/transactions.cpp:398-404 | a dependency-free transaction of a received block is accepted exactly if it passes the other checks and the all-zero sender has had a promise in turn |
| AgeingInvariant.RunOk | code/transactions.cpp:264-344 | the invariant of the timed network holds in every state of every run |
| AgeingInvariant.ForgottenKeys | code/transactions.cpp:703-722 | a commit makes the node forget a key if and only if it is ahead of the turn and takes the conflict record of this key with it |
| AgeingSafety.ReceivedBlocksReopenNothing | code/transactions.cpp:396-404 | a transaction accepted in a received block never does so, whenever the block is committed |
| AgeingNetwork.RunsReach | code/transactions.cpp:264-344 | every state of a run is the last state of a run, so what holds of reachable states holds throughout |
| AgeingSafety.NoConflictingPromises | code/transactions.cpp:286-326 | with delay at most D and AT >= D, two promises by ageing of one sender and number, at any nodes, carry the same transaction if and only if they write the number in the same way |
| AgeingSafety.NoConflictWhenPrinted | code/transactions.cpp:286-326 | so they never conflict if all accepted keys are written as printed |
| AgeingSafety.PromisedIsAlone | code/transactions.cpp:302-326 | with AT >= 2D, no node ever accepts another transaction of a promised key |
| AgeingSafety.RecordedAge | code/transactions.cpp:122-132 | where a promised transaction was disturbed, the recorded age, the lateness of the promising node's sight of the conflict and D together exceed AT |
| AgeingSafety.ThresholdIsJustified | code/transactions.cpp:122-132 | if the promising node saw the conflict at most D after the disturbed node, the recorded age exceeds AT - 2D, so the full suffix is demanded |
| AgeingRuns.RecordedAges | code/transactions.cpp:122-132 | every age that satisfies this bound is recorded in some run, and no other |
| AgeingRuns.ThresholdIsExact | code/transactions.cpp:122-132 | for AT > 2D, the full suffix is demanded in all runs if and only if promising nodes see conflicts at most D + 1 after disturbed ones |
| AgeingRuns.ThresholdsAreExact | code/transactions.cpp:302-326 | no conflicting promises of one key in any run if and only if AT >= D; no accepted conflict with a promised key if and only if AT >= 2D |
| AgeingRuns.TwoSpellings | code/transactions.cpp:286-326 | a run in which two nodes promise different transactions of one sender and number, written in two ways |
| AgeingRuns.CreatedAgain | code/transactions.cpp:655-656 | how overwriting an ageing record by creating the key again leads to conflicting promises |
| AgeingRuns.CreatedOverConflict | code/transactions.cpp:655-656 | the same for creating a key over a conflict record |
| AgeingRuns.CommittedAhead | code/transactions.cpp:703-722 | how a commit ahead of the turn that takes a conflict record along leads to conflicting promises |
| Merkle.ComputeMerkleTreeRoot | code/verify.cpp:70-84 | the root of the leaves |
| Merkle.ComputeMerkleProof | code/verify.cpp:86-114 | the leaf, its siblings from the bottom up, and the root |
| Merkle.VerifyMerkleProof | code/verify.cpp:124-154 | true exactly if one of the first two entries is the hash and the climb reaches the last entry and the root |
| Merkle.ProofAccepted | code/verify.cpp:86-154 | over a power of two of leaves the computed proof has k+2 entries and is accepted |
| Merkle.ClimbSound | code/verify.cpp:70-154 | if a proof climbs to the root of the leaves, the hash is the leaf, or the proof and the leaves give two different strings with one hash |
| Mining.AcceptedExtendsView | code/process_buffer.cpp:411-430 | a block accepted against the root over a view extends the end of its own chain in it, or a collision is at hand |
| Mining.AcceptedNamesBlock | code/process_buffer.cpp:411-430 | a block is accepted exactly if the hash text of the two roots starts with the block's hash and ends with digits that pick its chain, and the proof leads from the parent to the committed root |
| Mining.CollectTips | code/miner.cpp:67-93 | the padded leaves, and the first chain with the largest next_rank |
| Mining.MineNewBlock | code/miner.cpp:56-142 | the block extends the chain its hash picks: its rank is the parent's next_rank, its next_rank is above that and at least every next_rank in view, and is rank + 1 or the next_rank of some end; its depth is one more than the parent's; its proof is that of the parent among the ends |
| Mining.MinesProtocolHeader | code/miner.cpp:131-136 | the protocol's header for a chain in terms of the ends that the miner sees |
| Mining.MinedBlockIsNewHeader | code/miner.cpp:69-136 | what mining says about the ranks and the depth of a block makes its header the one that the protocol appends to the pool |
| Mining.ChainOfLastDigits | code/verify.cpp:62-67 | the chain is the number spelled by the last six hexadecimal digits, modulo the number of chains |
| Mining.MinedIsValid | code/verify.cpp:117-121 | a mined block has a proof of merkle_proof_length entries and passes the chain, hash and Merkle checks |
| Mining.HonestBlockAccepted | code/process_buffer.cpp:411-430 | a mined block, serialised, split and parsed, comes back equal and passes the checks |
| Numerals.BlockhashRoundTrip | code/verify.cpp:45-59 | printing a block hash gives 16 lower-case hex digits that parse back to it |
| Numerals.BlockhashOfText | code/verify.cpp:45-59 | the first 16 digits of a hash text name exactly one block hash, whose text they are |
| Numerals.StoullOfPrint | code/misc.cpp:56-66 | a printed number parses back exactly if it fits 64 bits |
| Numerals.StoiOfPrint | code/misc.cpp:43-53 | a printed number parses back exactly if it fits a signed 32-bit integer |
| Numerals.StoiInText | code/misc.cpp:43-53 | white space in front and text behind a number do not matter, and a negative int wraps around in its 32-bit field |
| Numerals.StoullInText | code/misc.cpp:56-66 | the same in 64 bits, where a minus sign is no error |
| Fields.Split | code/misc.cpp:26-41 | the fields between separators; an empty field at the very end is not reported |
| Fields.SplitJoin | code/misc.cpp:26-41 | splitting undoes joining separator-free fields if and only if there is one field or the last is not empty; otherwise exactly the empty last field is missing |
| Messages.CreateFullBlock | code/requests.cpp:197-247 | the text of the message, field by field, which is the joined fields of the block |
| Messages.FullBlockRoundTrip | code/requests.cpp:197-283 | a full-block message of a sendable block parses back to the same block |
| Messages.FullBlockReceived | code/requests.cpp:250-283 | what a reader gets of any written full block: at a node that reports transmission errors nothing unless the sender is named, the chain exists and port and chain fit 31 bits; otherwise the block, a larger number read as 0 |
| Messages.HeaderText | code/requests.cpp:64-73 | the text of a header message, field by field |
| Messages.HeaderReceived | code/requests.cpp:76-108 | what a reader gets of any sent header: nothing at a node that reports transmission errors and cannot read it, otherwise the header, an unreadable number read as 0 |
| Messages.HeaderRoundTrip | code/requests.cpp:64-108 | a header message parses back to the same header if and only if its int fields fit 31 bits and, at a node that reports transmission errors, the sender is named and the chain exists |
| Framing.ProcessBuffer | code/process_buffer.cpp:38-78 | any buffer, well formed or not: one that does not start with '#' is thrown away; otherwise the chunks up to the first one that does not end with '!' are handed over as frames, and the rest stays; a refused frame at the very end stays too |
| Framing.CutIsUnique | code/process_buffer.cpp:38-78 | this reading of a buffer fits exactly one outcome, the one computed |
| Framing.AnyCutGivesTheFrames | code/process_buffer.cpp:38-78 | however the stream is cut into reads, exactly the sent frames are handled, in order, and the buffer keeps the unfinished end |
| Framing.RefusedFramesComeAgain | code/process_buffer.cpp:38-91 | whatever handlers refuse and however the stream is cut, every read but the last that ends right after a frame refused in it makes one frame more; exactly the sent frames are handed over if and only if there is no such read |
| PingFlood.Server.AddPing | code/MyServer.cpp:743-761 | records a new or smaller distance, and says whether it did |
| PingFlood.FirstOrSmallest | code/MyServer.cpp:743-761 | whatever distances are heard of one ping, in latency mode the first one stays on record and in diameter mode the smallest |
| PingFlood.NeverTooShort | code/process_buffer.cpp:82-116 | no record is ever below the hop distance minus one |
| PingFlood.QuietIsExact | code/process_buffer.cpp:82-116 | with no ping under way, every record is exactly the hop distance minus one |
| PingFlood.HandleDecreases | code/process_buffer.cpp:95-116 | handling a ping lowers (nodes without record, sum of records, pings under way) lexicographically |
| PingFlood.NoEndlessFlood | code/process_buffer.cpp:95-116 | there is no endless flood |

## Left out

- Sockets, strands, timers, connections, peer lists and name resolution (code/MyServer.cpp, code/get_ip.cpp): asynchronous library calls.
- Mutexes and sleeping loops: a locked region is one atomic step. `verify_transaction_from_block` and `remove_from_mempool_and_pending` return early without unlocking; the model has no locks to keep.
- Files, printing, counters of latency and the partial times (code/Blockchain.cpp:890-922), which repeat the walk of the commit pass for statistics.
- Signatures (their check is switched off in the source), sha256 itself, random addresses and amounts, the clock: parameters.
- `update_transactions_block` returns at once and `RSS_prog` is not used.
- `NO_T_DISCARDS` is 1 in the source; the model has one discard depth, as a parameter.
- The 64-bit sequence numbers of transactions and the counters are unbounded; a sequence text that is not a number, on which the source throws, is not modelled.
- Message texts of transactions are modelled as records whose key keeps the number and which spelling of it was used.
- The source reads one field past the end of a full-block message that has exactly the minimum number of fields; the model does not parse such a message.
- `key_present`, which drops a message seen before in the same read, appears in `Framing` as part of what a handler refuses.
- PingFlood.QuietIsExact: each ping is handled in a read of its own, so the second ping of one sender in a read, which `key_present` drops even if it is shorter, is not modelled.
- Header honesty: depth and ranks of received headers are not checked by the source, so a received header is taken from the pool of mined ones; its chain number is taken to be below CHAINS.
- The times of a header that was received without its full block are not initialised in the source; the model starts them at 0. They are read only once the block is full, after the reset.
- `still_waiting_for_full_block`, `remove_waiting_blocks` and `get_one_transaction`: bookkeeping that nothing here depends on.
- BlockStore.Blockchain.ConnectTree: links the child before it enters the fetch index, where the source enters first; both happen under one lock.
- BlockStore.Blockchain.MergeOrphans: looks the parent up before merging the search trees, where the source does so after; the node found is the same.
- BlockStore.Blockchain.AddReceivedBlock: promises nothing for a header that no miner of the run made, which the source stores unchecked.
- BlockStore.Blockchain.DropOrphan: a dropped orphan tree is not freed in the source and simply leaves the node's forest here.
- BlockStore.Blockchain.ReceiveFullBlock: the outcome of the transaction checks and of the hash, Merkle and trailing checks are parameters; the latter are modelled in `Mining`.
- AgeingSafety.NoConflictingPromises: runs leave out exactly the creations over an unpromised record and the commits that make a node forget a key, for each of which `AgeingRuns` has a run into conflicting promises; creating the very same transaction over its own ageing record is left out with them. What is injected from outside does not claim a correct node as sender.
- AgeingSafety.RecordedAge: a node's record of a key that it created although the key was promised there does not count.
- Runs.AgreementOverRuns: that two nodes' partial chains are prefix-comparable is the premise of OHIE's security, not proved here.
- Framing.AnyCutGivesTheFrames: no handler refuses a frame; `Framing.RefusedFramesComeAgain` says exactly what happens otherwise.
