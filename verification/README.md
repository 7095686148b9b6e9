# Nexus Ledger: a model of the node and its network

Nexus Ledger is a peer-to-peer ledger written in C++ over SQLite.  This project models its core in Dafny
and proves what the code guarantees over whole runs, including several things its checks alone would not suggest.

| file | what it holds |
|---|---|
| `Types.dfy`, `Difficulty.dfy` | transactions, headers, blocks, the genesis row, `MAX(height)`; the difficulty rule |
| `Merkle.dfy`, `Mining.dfy` | the Merkle loop and the tree it computes; the text a block hash is taken of, the nonce search and `validate` |
| `Ledger.dfy`, `LedgerLaws.dfy` | the tables as class `LedgerDB`, their constraints and the balance view; their laws |
| `Pool.dfy` | the ordered priority index: insertion, truncation, cleaning, selection |
| `Chain.dfy` | class `Blockchain`: every operation as a function on states and as a method that does it in place |
| `ChainRuns.dfy`, `Replacement.dfy`, `Draining.dfy`, `Settlement.dfy` | what holds of one ledger after any run of operations |
| `Mempools.dfy`, `Lifecycle.dfy` | entry by entry, what each operation and each step of the system puts into a mempool, takes out and leaves alone |
| `Protocol.dfy`, `Agreement.dfy` | how a header chain reacts to blocks and messages; what two chains share |
| `Network.dfy` | all nodes' header chains and the messages on their way as one state machine |
| `Provenance.dfy`, `ChainDifficulty.dfy` | where the blocks of a run come from; the difficulties on its chains |
| `Futures.dfy`, `Tips.dfy` | continuations of a run; what decides whether nodes can still come to one tip |
| `Meeting.dfy`, `Climbing.dfy` | how they do; how a lower node comes to mine a rival of two competing tips |
| `Parting.dfy`, `Stalemate.dfy` | why they otherwise cannot, for tips of different and of equal height |
| `Convergence.dfy` | the two together, for two nodes and for all, and how nodes come apart |
| `LedgerNetwork.dfy` | the same machine with whole ledgers, submissions and drafts, its simulation into `Network`, and what all ledgers keep |
| `Validity.dfy` | the blocks that nodes mine would pass `validate`, and what their hashes tell apart |
| `Forfeits.dfy` | exactly when a node loses transactions it has stored, its reward among them |
| `Nodes.dfy` | class `Node`: message handlers and mining loop on a `Blockchain`, carried out in place |
| `Concurrency.dfy` | several threads appending to one table, database call by database call |

**How the layers meet.**  `Chain.Blockchain` methods equal functions on states; `Chain.OperationsOnHeaders` shows that
these functions, seen through the header columns, are the ones of `Protocol`.  `Nodes.Node` methods equal the steps of
`LedgerNetwork`, and `LedgerNetwork.MoveOnHeads` shows each of its steps to be a step of `Network`.  So what `Network` proves of
header chains holds of the ledgers, and gives in turn what the results about one ledger ask of their callers.

**The network.**  A message on its way may reach any node at any time, in any order, repeatedly, until it is lost for good;
blocks are broadcast when they are mined or accepted, and never again.  Mining is two steps, so the tip may change while a
nonce is searched for.  Results about runs ask one thing of the hash function, `Protocol.CollisionFree`: among the headers of
the run, genesis rows included, equal hashes mean equal heights and equal parent hashes.  Hashes are otherwise arbitrary
strings; `ChainDifficulty` and `Convergence` ask in addition that no two mined headers share one (`Protocol.ToldApart`).  Every
node's genesis row carries its own timestamp, as the schema script writes it, so agreement on height 0 is agreement on the hash.

**Where code and documentation differ.**  The code is followed.
- The project's own README promises automatic synchronisation.  Two nodes can still come to one tip if and only if the tip that
  is not higher lies on the other chain, or the announcement that would put it there is still on its way, or the two tips
  compete and a rival of both is on its way or can still be mined by a lower node (`Convergence.MeetExactly`).  The whole network
  can if and only if every two nodes can (`Convergence.AllMeetExactly`).  Two nodes that mine one block each before they are
  connected never do (`Convergence.OneBlockEachParts`).  Once nodes differ below both of their tips no message helps
  (`Network.DeepForkIsPermanent`).
- The comment on `difficulty_adjustment_interval` speaks of every ten blocks; the code recalculates at every block from height 10 on.
- A transfer is stored as pending when admitted, and the row a mined block would insert for it violates `UNIQUE (tx_hash)`;
  no submitted transfer ever becomes confirmed, on any node (`LedgerNetwork.NothingSettlesAnywhere`).
- A node takes any broadcast that has its tip's height and parent for a competing block, its own tip's header included, and
  drops the tip's transactions, the reward among them (`Forfeits.OwnBroadcastForfeitsReward`).  Nothing else ever takes stored
  rows away (`Forfeits.RowsLostExactly`).
- A SYSTEM transaction is admitted without a balance check (`LedgerNetwork.SystemSubmissionSticks`).  Once in the index it never
  leaves mempool and index under mining (`Draining.StuckStays`), and such entries are all that keeps a mempool from
  draining (`Draining.DrainsExactlyWhenNothingStuck`).
- On arbitrary rows the balance view counts a confirmed transfer to oneself as income (`LedgerLaws.BalanceColumns`).  In the runs
  of this code the only such rows are rewards of a miner that calls itself SYSTEM (`Settlement.SelfTransfersPaySystem`); its
  reward comes out of nothing (`Settlement.MiningPaysOnlyReward`).
- The text a block hash is taken of has nothing between its fields, so a timestamp and a nonce can trade digits without changing the hash
  (`Mining.NeighboursTradeDigits`); with equal field widths it commits to every field (`Mining.HashCommits`).
- A node whose tip row is missing dereferences an empty optional on NEW_BLOCK; the model ignores the message there, and
  `Network.EveryChainLinked` shows the case does not arise.

**Assumptions.**  Amounts and fees are exact reals, block difficulties integers.  SQL statements fail only through
constraints.  Every message was built by a node running this code; the source would take any header.  Methods of `Blockchain`
are atomic, except in `Concurrency`.  Clock readings, JSON lengths, coinbase hashes and found hashes are parameters.

## Model

| member | source | states |
|---|---|---|
| Network.EveryChainLinked | src/blockchain/blockchain.cpp:10-36 | in every reachable state of the network each chain runs without a gap from genesis, each block names its predecessor's hash, and each was mined, has difficulty 1, 2, 3, 4 or 6, and a hash whose first that many characters are zeros |
| Network.DepthOneFinality | src/core/node.cpp:351-402 | between any two moments of a run no height drops and nothing below the earlier tip changes |
| Network.NodesAgreeBelow | src/blockchain/blockchain.cpp:21-31 | two nodes holding one hash hold it at one height and agree on all blocks below |
| Convergence.MeetExactly | README.md:17 | from any reachable state there is a continuation after which two given nodes have one tip, if and only if `Tips.CanMeet`: the tip that is not higher lies on the other chain, or the announcement of that chain's block at its height is on its way; or the tips compete and a rival of both is on its way, or what is on its way takes a lower node up to their parent |
| Convergence.AllMeetExactly | README.md:17 | from any reachable state the whole network can still come to one tip if and only if every two of its nodes can |
| Convergence.OneBlockEachParts | src/core/node.cpp:495-513 | in a network of two nodes that mine one block each while nobody is connected, the chains do not differ below their tips, and never come to one tip |
| Convergence.DeepForkArises | src/core/node.cpp:677-716 | two nodes that mine two blocks each before anything is delivered differ below both tips |
| Provenance.RunLanded | src/core/node.cpp:705-712 | in every reachable state the miner of a stored block, or of one on its way, has a chain at least that high |
| Stalemate.GapStays | src/core/node.cpp:265-402 | if no lower node near a chain has reached a height and nothing on its way brings one there, that stays so under every step |
| Parting.RowMoves | src/core/node.cpp:351-402 | a stored row changes only at the tip, and only to a rival whose announcement was on its way |
| Network.DeepForkIsPermanent | src/core/node.cpp:351-402 | two nodes that differ below both tips never have the same tip again, whatever follows |
| Network.SyncResponseEffect | src/core/node.cpp:293-329 | in any reachable state a sync response, however old, was cut from a chain some node held earlier, and gives the receiver that whole chain if it reaches down to the tip and the tip lies on that chain, and otherwise changes nothing; a duplicate changes nothing more |
| Network.MinedBlocksFormTree | src/blockchain/blockchain.cpp:119-133 | in every reachable state every mined block is reached from genesis by hash links with heights rising by one |
| Network.MessageSafe | src/core/node.cpp:265-402 | any message keeps a healthy chain healthy and growing, and the reply carries only mined blocks or a real snapshot |
| Network.HitSafe | src/core/node.cpp:685-717 | a found nonce keeps every chain healthy although the tip may have changed since the draft |
| Network.StepSafe | src/core/node.cpp:211-408 | every step keeps all chains healthy and lets each only grow |
| Network.RunSafe | src/core/node.cpp:211-408 | the same for runs of any length |
| Protocol.AddKeepsLinked | src/blockchain/blockchain.cpp:10-36 | a mined block is accepted exactly when it names the tip's hash, and is then one above the tip |
| Protocol.ReplaceKeepsLinked | src/blockchain/blockchain.cpp:247-270 | a competing block replaces the tip exactly when height and parent match; the tip is never lost |
| Protocol.BroadcastEffect | src/core/node.cpp:351-402 | on a healthy chain a mined block is stored and passed on exactly when it is a child of the tip or has the tip's height and parent; any other higher block is answered by a request from the tip up, the rest is ignored |
| Protocol.ChildOfTip | src/blockchain/blockchain.cpp:16-31 | naming the tip's hash forces the height the code never checks |
| Protocol.AbsorbKeepsLinked | src/core/node.cpp:293-329 | a batch of blocks of any origin keeps a chain linked and only extends it |
| Protocol.AbsorbBlockByBlock | src/core/node.cpp:293-329 | each block of a batch counts for itself: one above the tip that names it is stored, any other leaves no trace and does not stop those after it |
| Protocol.GapExactlyWhenNotNext | src/blockchain/blockchain.cpp:16-31 | for an arbitrary block naming the tip, acceptance leaves a gap exactly when its height is not the tip's plus one |
| Protocol.GapResetsDifficulty | src/blockchain/blockchain.cpp:209-216 | on a chain whose gap swallows the first block of the window the difficulty is 2, whatever it was |
| Protocol.EmptyStaysEmpty | src/blockchain/blockchain.cpp:10-31 | without its genesis row a node takes no block any more |
| Protocol.TipLostExactlyOnRepeatedHash | src/blockchain/blockchain.cpp:262-270 | for an arbitrary competing block, the tip and one height are lost exactly when its hash is stored below |
| Protocol.DraftExtendsTip | src/blockchain/blockchain.cpp:116-137 | a draft is one above the tip and names it; the height-0 fallback is not taken |
| Protocol.DifficultyOfLinked | src/blockchain/blockchain.cpp:202-245 | on a healthy chain the missing-block fallback is unreachable and the difficulty is legal |
| Agreement.CommonPrefix | src/blockchain/blockchain.cpp:21-31 | one shared hash means a shared height and shared hashes below |
| Agreement.CommonPrefixRows | src/storage/ledger_db.cpp:92-108 | with headers told apart by hash, the shared rows above genesis are equal |
| Agreement.ForkNeverMerges | src/blockchain/blockchain.cpp:21-31 | chains that differ at a height differ at every height above |
| Agreement.SyncExchange | src/core/node.cpp:265-329 | the response from any height yields the sender's blocks above the tip, or nothing, decided by one comparison at the tip |
| Agreement.SyncAgrees | src/core/node.cpp:265-329 | an accepting receiver ends with the sender's hashes; replaying the response is a no-op |
| Agreement.LaggingNodeCatchesUp | src/core/node.cpp:382-397 | sync or broadcast, request, response: a node behind by any number of blocks ends on the sender's chain exactly when its tip lies on it, and otherwise stays as it was |
| Concurrency.AppendersNeverClash | src/blockchain/blockchain.cpp:11-35 | for any interleaving of the calls of any number of appenders, of drafts made here and of blocks other nodes mined on any parent, the chain stays gap-free, rows never change, and the successful inserts were checked against tips 0, 1, 2, ... once each |
| Concurrency.InsertExtends | src/blockchain/blockchain.cpp:21-35 | an insert checked against an outdated tip fails on UNIQUE (height); one that succeeds extends the tip |
| Concurrency.StepSafe | src/blockchain/blockchain.cpp:116-133 | each single database call, and each block mined elsewhere, keeps the invariant |
| Difficulty.RetargetAntitone | src/blockchain/blockchain.cpp:218-232 | a longer time span never gives a higher difficulty |
| ChainDifficulty.EveryDifficultyFollowsRule | src/blockchain/blockchain.cpp:202-245 | in every reachable state every stored block of every node has the difficulty the rule gives for the rows below it, although no receiver checks it |
| ChainDifficulty.DifficultyIterates | src/blockchain/blockchain.cpp:209-239 | on such a chain the difficulty at a height is the rule iterated over the sliding windows since any earlier height |
| ChainDifficulty.LimitsOnChains | src/blockchain/blockchain.cpp:221-239 | in every reachable state three fast windows in a row on a chain give 6 and two slow ones 1, whatever was before |
| Difficulty.RetargetLimits | src/blockchain/blockchain.cpp:221-239 | from any legal value three or more fast windows give 6, two or more slow ones give 1 |
| Merkle.CalculateMerkleRoot | src/blockchain/block.cpp:17-40 | the loop ends and returns the hash of the recursively defined tree |
| Merkle.NextLevel | src/blockchain/block.cpp:27-37 | padding then pairwise hashing computes one tree level |
| Merkle.TreeOfLevel | src/blockchain/block.cpp:27-37 | one pass of the loop removes one level of the tree and keeps its hash |
| Merkle.RootBinds | src/blockchain/block.cpp:17-40 | equal roots of different lists of one length yield two strings with one digest |
| Merkle.RootDeterminesTree | src/blockchain/block.cpp:17-40 | for any two lists of hashes, whatever their lengths: equal roots mean equal trees, once the deeper list is taken to the depth of the other, or a digest collision that is written down; equal trees mean equal roots |
| Merkle.ParentSameRoot | src/blockchain/block.cpp:32-37 | two hashes and the one hash above them share their root, so the root does not bind the number of leaves |
| Merkle.Collision | src/blockchain/block.cpp:34 | the extraction itself |
| Merkle.RepeatedLastSameRoot | src/blockchain/block.cpp:28-30 | an odd list of three or more and the same list with its last hash repeated share their root |
| Mining.Mine | src/blockchain/block.cpp:42-64 | stops at the least nonce whose hash starts with as many zeros as the difficulty says; the result passes `validate` exactly when its Merkle root is right; a failed search leaves the last hash and the limit |
| Mining.TextTellsFields | src/blockchain/block.cpp:10-15 | for headers of equal field widths the hashed texts are equal if and only if all fields but the hash are |
| Mining.NeighboursTradeDigits | src/blockchain/block.cpp:10-15 | without equal widths they need not be: a timestamp and a nonce trade digits; the text is spelled out |
| Mining.HashCommits | src/blockchain/block.cpp:10-15 | headers of equal field widths with one hash agree on every other field, or two strings with one digest are written down |
| Mining.SealedValidates | src/blockchain/block.cpp:55-64 | a sealed header validates with a list of transactions exactly when its hash starts with enough zeros and its root is that of the list |
| Mining.ValidBlocksUnderOneHash | src/blockchain/block.cpp:55-64 | two valid blocks of equal field widths under one hash have one header, one Merkle tree, and equal transaction hashes if equally many, or a collision is written down |
| Validity.DraftValidates | src/blockchain/blockchain.cpp:139-183 | any draft, sealed with any nonce, validates exactly when its hash starts with as many zeros as its difficulty says |
| Validity.StruckValidates | src/core/node.cpp:685-716 | a block found with a computed hash validates |
| Validity.EveryMinedBlockValidates | src/blockchain/block.cpp:55-64 | in every history in which hashes are computed, every block mined so far validates with some transactions, although nobody calls `validate` |
| Validity.MinedHeadersToldApart | src/blockchain/block.cpp:10-15 | in these histories two mined headers of equal field widths share a hash only if they are the same, or a collision is written down |
| Ledger.LedgerDB.constructor | src/storage/schema.sql:203-237 | the initial tables |
| Ledger.LedgerDB.GetLatestHeight | src/storage/ledger_db.cpp:182-197 | the largest stored height, 0 on an empty table |
| Ledger.LedgerDB.GetBlockByHeight | src/storage/ledger_db.cpp:122-160 | the stored row with the transactions linked to its height, or nothing |
| Ledger.LedgerDB.GetTransactionsByBlock | src/storage/ledger_db.cpp:241-283 | the linked transactions in row order |
| Ledger.LedgerDB.AddTransaction | src/storage/ledger_db.cpp:199-222 | stores a row unless its hash is stored or a CHECK fails; a negative height becomes NULL |
| Ledger.LedgerDB.AddBlock | src/storage/ledger_db.cpp:91-120 | stores row and transactions, or nothing when height or hash is taken |
| Ledger.LedgerDB.DeleteBlockRow | src/blockchain/blockchain.cpp:262-264 | removes the block row of one height only |
| Ledger.LedgerDB.DeleteTransactionRows | src/blockchain/blockchain.cpp:265-267 | removes exactly the rows linked to one height, keeping order |
| Ledger.LedgerDB.GetBalance | src/storage/ledger_db.cpp:329-348 | the view's sum over all rows |
| LedgerLaws.BalanceAfterBatch | src/storage/ledger_db.cpp:113-117 | after a block the balance changes by exactly its transactions whose hash was new, each hash once |
| LedgerLaws.InsertedHashes | src/storage/ledger_db.cpp:113-117 | which hashes are stored after a block |
| LedgerLaws.BatchKeepsRows | src/storage/schema.sql:52-66 | hashes stay unique and CHECKs satisfied |
| LedgerLaws.BlockKeepsReferential | src/storage/ledger_db.cpp:91-120 | linked rows belong to a stored block that counts them, after an insert |
| LedgerLaws.CountTellsRefused | src/storage/ledger_db.cpp:91-120 | the count in a block's row exceeds the rows linked to it exactly when one of its transactions was refused, its hash being stored or a CHECK failing |
| LedgerLaws.DeleteKeepsReferential | src/blockchain/blockchain.cpp:262-267 | the same after deleting a tip |
| LedgerLaws.DeleteUndoesBatch | src/blockchain/blockchain.cpp:265-267 | deleting a height forgets exactly what a block inserted there |
| LedgerLaws.Conservation | src/storage/schema.sql:132-148 | all balances, SYSTEM's included, add up to minus the fees of confirmed transfers plus the amounts of confirmed self-transfers |
| LedgerLaws.BalanceColumns | src/storage/schema.sql:139-158 | balance is received minus sent plus what was sent to oneself; the columns agree exactly when nothing was |
| Pool.StrictWeakOrder | src/blockchain/blockchain.h:17-22 | the comparator is a strict weak order whose ties are equal rate and time |
| Pool.TakeInsert | src/blockchain/blockchain.cpp:99-106 | evicting before an insertion does not change what is left after evicting again |
| Pool.StreamIsTopK | src/blockchain/blockchain.cpp:99-106 | the index kept within a bound while offers stream in equals the best of all offers, first offer kept on ties |
| Pool.DoomedAndKept | src/blockchain/blockchain.cpp:289-309 | the two loops of the clean-up split the index by one test, and their sizes add up |
| Pool.CleanedAffordable | src/blockchain/blockchain.cpp:285-315 | after cleaning, live indexed transactions can be paid |
| Pool.CleanIdempotent | src/blockchain/blockchain.cpp:285-315 | a second clean-up changes nothing |
| Pool.SelectionOptimal | src/blockchain/blockchain.cpp:144-165 | no choice of at most ten eligible entries has a larger total rate than the one taken |
| Chain.KeyOrder | src/blockchain/blockchain.h:17-22 | the index ranks by fee per character, then by age |
| Chain.Blockchain.constructor | src/blockchain/blockchain.cpp:6-8 | genesis tables, empty mempool and index |
| Chain.Blockchain.AddBlock | src/blockchain/blockchain.cpp:10-54 | the whole new state and the result, on every branch |
| Chain.Blockchain.AddTransaction | src/blockchain/blockchain.cpp:56-114 | the whole new state and the result, on every branch |
| Chain.Blockchain.EvictExcess | src/blockchain/blockchain.cpp:102-106 | the worst keys go, each with the transaction it names |
| Chain.Blockchain.CreateBlock | src/blockchain/blockchain.cpp:116-184 | the block and the state left behind, emptied mempool included |
| Chain.Blockchain.SelectTransactions | src/blockchain/blockchain.cpp:144-165 | the first ten live affordable entries in index order |
| Chain.Blockchain.GetCurrentDifficulty | src/blockchain/blockchain.cpp:202-245 | the difficulty rule on the stored headers |
| Chain.Blockchain.ReplaceLastBlock | src/blockchain/blockchain.cpp:247-283 | the whole new state and the result, the failed insert included |
| Chain.Blockchain.CleanMempool | src/blockchain/blockchain.cpp:285-315 | mempool and index become their filters, and the result is the drop in index size |
| Chain.OperationsOnHeaders | src/blockchain/blockchain.cpp:10-36 | append and replace commute with forgetting transactions and mempool |
| Chain.TxsOfSelection | src/blockchain/blockchain.cpp:144-160 | every selected key is live and affordable and contributes its transaction |
| ChainRuns.RunSound | src/storage/ledger_db.cpp:91-120 | after any operations, failed replacements included: referential integrity, unique hashes, an ordered index of at most 10000 keys, mempool entries under their own hash |
| Mempools.AdmitExactly | src/blockchain/blockchain.cpp:56-114 | when a transaction is admitted, and all that becomes of mempool, index and rows: it is in the mempool even when its key is tied; only a full index costs an entry, the one its worst key names |
| Mempools.CleanExactly | src/blockchain/blockchain.cpp:285-315 | a clean-up takes out exactly the entries that the index knows and their sender cannot pay, and the keys that name them |
| Mempools.AppendExactly | src/blockchain/blockchain.cpp:32-50 | an accepted block takes out its own transactions, SYSTEM's excepted, and those that cannot be paid after it; all else stays |
| Mempools.ReplaceExactly | src/blockchain/blockchain.cpp:247-283 | a replacement puts back the undone block's transfers that can still be paid and takes out what cannot; with room in the index nothing else changes |
| Mempools.ReplaceWhen | src/blockchain/blockchain.cpp:247-270 | exactly when a replacement succeeds; one that fails after the delete costs the tip but nothing of mempool or index |
| Mempools.SelectionExactly | src/blockchain/blockchain.cpp:144-165 | for any ledger the chosen entries are live and can be paid, and any other such entry is left out only if ten that rank before it are chosen |
| Lifecycle.SubmittedStays | src/blockchain/blockchain.cpp:56-114 | in every history, exactly when a submission is accepted, and that it then is in the mempool in place of nothing else unless the index is full |
| Lifecycle.MiningTakesOwn | src/blockchain/blockchain.cpp:37-48 | in every history a block a node mines takes its own transfers out of that node's mempool and nothing else |
| Lifecycle.MessagesTake | src/core/node.cpp:293-381 | in every history no message takes anything out of a mempool or index, except a broadcast that competes with the tip, whose effect is given entry by entry |
| Lifecycle.BroadcastTaken | src/core/node.cpp:351-402 | in every history a delivered broadcast is stored, passed on and ends the search exactly when it is a child of the tip or has its height and parent |
| Lifecycle.DraftingTakes | src/blockchain/blockchain.cpp:167-172 | in every history a draft leaves the ledger alone, unless the index knows no mempool entry: then it empties both |
| Lifecycle.OtherStepsTakeNothing | src/core/node.cpp:664-668 | no other step, and no step of another node, changes a ledger; the periodic clean-up included |
| ChainRuns.AdmitIndex | src/blockchain/blockchain.cpp:94-106 | one admission keeps the best keys and touches no other mempool entry |
| ChainRuns.ReplaceSound | src/blockchain/blockchain.cpp:247-283 | replacement keeps integrity whether or not its insert succeeds |
| ChainRuns.IndexHoldsBest | src/blockchain/blockchain.cpp:94-106 | over any admissions from an empty index, it holds exactly the best 10000 accepted keys |
| ChainRuns.ConfirmedAdmissionUncovers | src/blockchain/blockchain.cpp:71-110 | admitting a transfer that is already confirmed can leave an earlier one without cover, so the pending status both callers set is needed |
| ChainRuns.MinedReplacementIsGentle | src/blockchain/blockchain.cpp:262-270 | on a healthy header chain a mined competitor repeats no stored hash |
| LedgerNetwork.EveryNodeConsistent | src/blockchain/blockchain.cpp:10-114 | on every node, at every moment, whatever was submitted, mined, delivered or replaced anywhere: the chain is linked, the tables, mempool and index consistent, and every live indexed transfer can be paid |
| LedgerNetwork.NoCheckRejects | src/blockchain/blockchain.cpp:144-165 | hence on no node a clean-up or the balance check of `createBlock` ever rejects anything; a draft takes the first ten live entries |
| LedgerNetwork.NothingSettlesAnywhere | src/storage/ledger_db.cpp:113-117 | on no node any address but SYSTEM ever sends anything; every other balance is the sum of its rewards |
| LedgerNetwork.HistoryHealthy | src/core/node.cpp:211-408 | every step of the whole system keeps ledgers and drafts healthy together with the header chains |
| LedgerNetwork.MoveOnHeads | src/core/node.cpp:211-408 | every step of the whole system, seen on the headers, is a step of the header network |
| LedgerNetwork.HistoryIsRun | src/core/node.cpp:211-408 | so every history of ledgers is a run of the header network, state by state |
| Forfeits.RowsLostExactly | src/core/node.cpp:370-381 | in every history, for every node and step: stored rows are lost if and only if the step delivers a broadcast with the tip's height and parent while transactions are linked to the tip; then all of those go, all others stay, and balances are as if the tip had brought none |
| Forfeits.OwnBroadcastForfeitsReward | src/core/node.cpp:370-381 | at any time a node that is sent its own tip's broadcast keeps its headers and loses what the block brought, the reward included |
| LedgerNetwork.DraftsAreBest | src/blockchain/blockchain.cpp:139-165 | in every history a draft holds the coinbase and then live transactions whose total rate no choice of at most ten live index entries exceeds |
| LedgerNetwork.SystemSubmissionSticks | src/blockchain/blockchain.cpp:71-92 | a transaction in SYSTEM's name, submitted to a fresh node, is accepted and then stuck, whatever its amount |
| LedgerNetwork.MessageOnHeaders | src/core/node.cpp:265-402 | taking in any of the three messages, seen on the headers, is what the protocol says |
| Replacement.ReplaceIsUndoRedo | src/blockchain/blockchain.cpp:247-283 | append then replace equals appending the sibling alone, up to unlinked rows put back; balances differ by exactly those, and a confirmed transfer is among them exactly when one stored for the block can still be paid and is not stored once the sibling is in |
| Replacement.BalancesReturnExactly | src/blockchain/blockchain.cpp:272-277 | for any two siblings, balances come out as if the replaced block had never been if no confirmed transfer of it comes back, and, where transfers pay fees and go to others, only then |
| Replacement.OppositeTransfersCancel | src/storage/schema.sql:132-148 | without fees the converse fails: two opposite transfers put back leave all balances alone |
| Replacement.EchoForfeitsReward | src/core/node.cpp:370-381 | a block's own header coming back keeps the header chain and undoes all its balance effects |
| Replacement.DeleteUndoesAppend | src/blockchain/blockchain.cpp:262-267 | the deletes restore the tables from before the append |
| Draining.DrainsExactlyWhenNothingStuck | src/blockchain/blockchain.cpp:167-172 | after as many accepted rounds as the mempool had entries it is empty, if and only if no SYSTEM transaction was live and indexed |
| Draining.RoundShrinks | src/blockchain/blockchain.cpp:37-48 | every accepted round strictly shrinks the mempool, stale and unindexed entries notwithstanding |
| Draining.StuckStays | src/blockchain/blockchain.cpp:38-45 | a live indexed SYSTEM transaction survives every round in mempool and index |
| Settlement.TransfersNeverSettle | src/storage/ledger_db.cpp:113-117 | no address but SYSTEM ever sends anything; every other balance is the sum of its rewards |
| Settlement.MiningPaysOnlyReward | src/blockchain/blockchain.cpp:139-160 | a mined block moves the reward from SYSTEM to the miner and nothing else, and not even that when the coinbase hash is stored already |
| Settlement.SelfTransfersPaySystem | src/storage/schema.sql:132-148 | in these runs a confirmed transfer to oneself can only be SYSTEM's to SYSTEM |
| Settlement.DraftIsProper | src/blockchain/blockchain.cpp:139-160 | drafted blocks contain no confirmed transaction but SYSTEM's |
| Nodes.Node.HandleNewBlock | src/core/node.cpp:351-402 | ledger, headers and outgoing message on every branch |
| Nodes.Node.HandleGetBlocks | src/core/node.cpp:265-291 | the reply holds the stored headers from the asked height, or there is none |
| Nodes.Node.HandleBlocksResponse | src/core/node.cpp:293-329 | the loop absorbs the headers one by one |
| Nodes.Node.HandleMessage | src/core/node.cpp:211-408 | ledger, headers, reply and interrupted search after any of the three messages |
| Nodes.Node.Begin | src/core/node.cpp:672-677 | nothing on an empty mempool, otherwise the draft and the target height, which is the draft's whenever the tip is stored |
| Nodes.Node.TryNonce | src/core/node.cpp:685-716 | one nonce on whatever the chain has become since the draft: stop if the target height is reached, else append and broadcast exactly when the hash starts with as many zeros as the difficulty says |
| Nodes.Node.MineOnce | src/core/node.cpp:666-717 | a pass in which nothing arrives: clean, draft, least hitting nonce below a million, append, broadcast only on success |

## Left out

- Network.DepthOneFinality: each handler call counts as one step; interleavings of `replaceLastBlock` with other threads inside one node, for which the code holds no lock, are not modelled.
- Replacement.BalancesReturnExactly: the converse is stated for transfers that pay fees and go to others (`Replacement.OppositeTransfersCancel`); for all others `Replacement.ReplaceIsUndoRedo` still says which rows come back.
- Convergence.MeetExactly: says that a common tip can be reached, not that it will be.  A message on its way may reach any node, while the source sends it to the peers connected at that moment; a node may ask any other for blocks, while the source asks its peers when they connect and periodically the first of them.
- Nodes.Node.MineOnce: the pass without interruption; what arrives between two nonces is covered by `Nodes.Node.TryNonce` and the machines.
- Mining.Mine: a block is a value here, as it is copied throughout the source; the method returns the updated block instead of changing it in place. Negative difficulties never meet their target.
- Network.HitSafe: the header network lets any node start or quit at any time; `LedgerNetwork` adds the test that the mempool is not empty, and ends the search in the step that accepts a broadcast; a nonce that hits between the two in the source can no longer be appended.
- Sockets, peer framing, peer discovery, HTTP, metrics, threads' start and stop, the command line and the load generator.
- JSON text, and what it loses: blocks travel as headers, as broadcasts and the parsing of responses have it.
- SHA-256 itself: the digest is a function whose outputs have 64 characters.  The text of a transaction hash is not modelled; transaction and coinbase hashes are given.
- Difficulties are integers, printed as such; the source keeps them in a double.
- Wallet rows and nonces: balances are computed for an address whose row is created on demand, and nonces are not checked.
- The on-disk mempool table, row ids, `tx_index` and SQL plumbing: nothing here reads them back.
- Signature, timestamp, data and nonce of a transaction are one opaque field, read back unchanged.
- `handleFork`, `updateTransactionStatus`, `clearMempool`, `removeFromMempool` and the transaction helpers: never called.
- Floating-point rounding, integer overflow of heights and nonces.
