# Kovanica: the block DAG, its ledger and its gossip, modelled in Dafny

Kovanica is a distributed ledger whose blocks form a DAG. This project models its consensus core
(`kovanica-dag`), its UTXO ledger (`kovanica-state`), and the parts of a node (`kovanica-node`) that
produce blocks and pass them on, and proves what they promise over every run.

`dafny verify dfyconfig.toml` checks the whole project.

## How it is put together

| files | what they hold |
|---|---|
| `Graphs`, `Trees`, `Layout`, `Coverage` | the DAG's ancestor relation, the selected-parent tree, its interval labels, and what covering sets must cover |
| `Oracle`, `Rebuild` | the reachability oracle as a class, grown leaf by leaf with reindexing, and built from scratch |
| `Ghostdag`, `Consensus`, `MergesetWalk`, `ChainSelection`, `Order` | GHOSTDAG data as a function of a block's past, the consensus invariant, selected tip and linearization |
| `Acceptance`, `Dags`, `Replay` | the rules an insert checks, the `Dag` class with its loops, and whole runs of inserts |
| `StoredData` | what the invariant says of stored blocks, over parent edges, stored numbers and ids alone |
| `Difficulty`, `Pow` | the clamped retarget and the limb multiplication of the target test |
| `Blocks`, `Bytes`, `Encodings`, `Transactions`, `Payload`, `WireForms`, `Snapshots` | byte codecs, the bounds-checked reader, where fields stand in the bytes, DAG snapshots |
| `Utxos`, `Apply`, `Validation`, `States`, `Finality`, `Ledgers`, `LedgerSnapshots` | the UTXO set, applying blocks, folds over orders, pruning, the `Ledger` class and its snapshots |
| `Production`, `FullNodes`, `Coinbases` | assembling a block from pending transactions, and when its coinbase is already taken |
| `Gossip` | continuous gossip between named nodes |
| `Types`, `Arithmetic`, `Sums` | shared types, and facts about products, quotients and sums over sets |

Methods mirror the loops and field updates of the sources and are proved against functions of the
block graph; the laws are then proved about those functions and about the invariants of the classes.

- **One invariant for the whole state machine.** `Dags.Dag.Valid` says that every stored entry is
  what its past determines and that the oracle is exact. `Dags.Dag.Insert` keeps it: the mergeset is
  found by asking the oracle, and the oracle stays exact because the mergeset is right.
- **The ledger refines the batch fold.** `Ledgers.Ledger.Valid` says that each stored state is the
  fold of the transactions over that block's order; `LedgerState` then returns what folding the whole
  linearization would, whatever has been pruned.
- **Specifications are stated twice.** The functions that methods are proved against are characterised
  again over stored fields, bytes and sums: `StoredData` for selection, order and colours,
  `Difficulty.RetargetExact` for the retarget, `Apply.BlockIff` and `Ledgers.EveryTurn` for blocks and
  runs, `Ledgers.OutcomeSpelledOut` for inserts, `Production.PickedIsGreedy` for the choice of
  transactions, and `WireForms` for encodings.
- **Gossip carries ghost history.** `Mesh.relays` and `Mesh.floods` record what was relayed and
  announced; its invariant says that whatever was promised has arrived or is in flight, that the peers
  of a node know each other or are about to, and `Left` is a measure that every delivery lowers.

Digests (BLAKE3) and signatures (Ed25519, section 5.1 of RFC 8032) are uninterpreted. No proof assumes
that digests never collide, except where `FullNodes` and `Coinbases` name exactly which collisions
would matter.
A block id is held as the 256-bit number its bytes spell. `HashMap` and set iteration is an arbitrary
choice at every step.

## Where code and comments differ

- `crates/kovanica-state/src/ledger.rs:579-583` says that finality only rises. The selected tip is the
  block of most blue work, the threshold uses its blue score, and a heavier branch can have the lower
  score. `Finality.FinalityFallsIff` says exactly when an insert lowers the threshold,
  `Finality.FinalityCanFall` gives a run of seven blocks on which it happens, and
  `Ledgers.FinalityFallsInLedger` shows that a ledger inserts each of them. `Ledgers.LookupCanMiss`
  shows that the state lookup which the code takes for granted (`ledger.rs:549-553`) then finds
  nothing. With equal work on all non-genesis blocks, or with finality off, neither can happen
  (`Finality.UniformFinalityRises`, `Ledgers.InsertRetains`).
- `crates/kovanica-dag/src/reachability.rs:279-281` speaks of covering sets that stay sorted and
  minimal. The proofs rely on neither: the binary search is modelled as landing anywhere in a list
  that its test does not split, nothing is assumed of the entries' number, and the answers are exact
  all the same.
- `crates/kovanica-node/src/node.rs:503-542` always expects its block to be accepted. It is, unless the
  coinbase's outpoint is taken: a coinbase is named by amount, miner and tag, `produce_block` tags it
  with its block's timestamp, and nothing compares the tag of a received coinbase with its block
  (`ledger.rs:235-255`, `validation.rs:113-150`). `FullNodes.AttemptInserted` is the exact condition.
  `Coinbases.CoinbaseCanBeTaken` is a run of two blocks on which it fails, difficulty on or off: a peer's
  valid block carries the tag of a time to come, and the attempt at that time is refused.
  `Coinbases.HonestBlockEnters` is the guarantee that is left: with difficulty enforced and every
  coinbase tagged with its own block's time, the block always goes in.
- `crates/kovanica-node/src/p2p.rs:182-183` says that a tick delivers and then advances the clock. The
  code advances first, and so does the model; that is why every queued message is due.

## Model

| member | source | states |
|---|---|---|
| `Oracle.Reachability.AnswersAreExact` | crates/kovanica-dag/src/reachability.rs:312-339 | Whenever the oracle is valid for a DAG, `is_ancestor(a, b)` holds exactly when `a` is a strict ancestor of `b` over parent edges, and `is_chain_ancestor` exactly when `a` is a strict selected-parent-tree ancestor |
| `Oracle.Reachability.AddBlock` | crates/kovanica-dag/src/reachability.rs:174-217 | Folding in a new leaf, reindexing if its parent is full, keeps the oracle exact for the grown DAG, given that the mergeset passed in is what the parents add to the selected parent's past |
| `Oracle.Reachability.RegisterLeaf` | crates/kovanica-dag/src/reachability.rs:174-192 | The leaf joins the sorted children of its selected parent, and exactly the sizes of the subtrees on its chain grow, each by one |
| `Oracle.Reachability.PlaceLeaf` | crates/kovanica-dag/src/reachability.rs:194-210 | After allocation every interval is again in order; while the parent has room the leaf gets exactly the first half of the rest and nothing else moves |
| `Oracle.Reachability.MakeRoom` | crates/kovanica-dag/src/reachability.rs:204-210 | With the parent full, parking the leaf past its end and reindexing puts every interval in order |
| `Oracle.Reachability.Reindex` | crates/kovanica-dag/src/reachability.rs:219-241 | The subtree moved is the lowest one on the way up whose interval has twice the room it needs, or the root's; its own interval and everything outside it stay; every block below gets at least its subtree size; the search ends |
| `Oracle.Reachability.RelayoutSubtree` | crates/kovanica-dag/src/reachability.rs:243-277 | The stack loop ends with the whole subtree laid out inside the given interval: children inside their parent, siblings disjoint, each with room for its subtree, nothing outside touched |
| `Layout.LayChildren` | crates/kovanica-dag/src/reachability.rs:257-275 | Children get gap-free slices in list order, each exactly its subtree size plus its rounded-down proportional share of the slack, all inside the region, and less than one place for each child is left over |
| `Layout.ProportionalShare` | crates/kovanica-dag/src/reachability.rs:262-270 | Rounded-down proportional shares never exceed the slack, however many children there are |
| `Oracle.Reachability.SliceForChildren` | crates/kovanica-dag/src/reachability.rs:249-276 | A leaf keeps its whole region free; any other block slices it among its children as `LayChildren` does |
| `Trees.ContainsIffReach` | crates/kovanica-dag/src/reachability.rs:312-318 | Interval containment holds exactly between a block and its descendants in the selected-parent tree |
| `Oracle.RelayoutRepairs` | crates/kovanica-dag/src/reachability.rs:194-241 | Relabelling the subtree of any ancestor of a parked leaf, inside that ancestor's unchanged interval, restores the order of the whole tree |
| `Oracle.Reachability.InsertToFutureCoveringSet` | crates/kovanica-dag/src/reachability.rs:279-309 | The covering set of `a` covers what it covered and `b`'s subtree and nothing more, although the binary search may land anywhere in an unsorted set |
| `Oracle.PartitionPoint` | crates/kovanica-dag/src/reachability.rs:288-289 | The binary search finds the boundary of a list the test splits; on any other list some index in range |
| `Coverage.CoverageStep` | crates/kovanica-dag/src/reachability.rs:48-57 | Updating the covering sets of the direct mergeset alone keeps every ancestry answer exact, for the new leaf and for all old pairs |
| `Coverage.CoveredLeaf` | crates/kovanica-dag/src/reachability.rs:48-57 | The new leaf is covered from exactly its past: ancestors of the selected parent reach it through the tree or an old entry, merged blocks through their new one |
| `Oracle.Reachability.Build` | crates/kovanica-dag/src/reachability.rs:125-162 | Building the oracle from a stored DAG, visiting the blocks in any order, gives one that is exact for it |
| `Rebuild.CollectEdges` | crates/kovanica-dag/src/reachability.rs:126-144 | One pass in any order, then sorting, yields the selected-parent tree's children in id order and the DAG's child edges |
| `Rebuild.SubtreeSizes` | crates/kovanica-dag/src/reachability.rs:344-376 | The enter/exit stack computes for every block the number of blocks in its subtree |
| `Rebuild.FutureOf` | crates/kovanica-dag/src/reachability.rs:394-408 | The walk over child edges collects exactly the descendants of a block |
| `Rebuild.CoversExact` | crates/kovanica-dag/src/reachability.rs:380-431 | The tree roots of the future outside a block's subtree, together with that subtree, hold exactly its future |
| `Rebuild.BuildFcs` | crates/kovanica-dag/src/reachability.rs:380-431 | With the covering sets built, tree and covers answer ancestry exactly for every pair |
| `Oracle.OraclesAgree` | crates/kovanica-dag/src/reachability.rs:58-63 | Two valid oracles for one DAG, rooted alike, give the same answers for every pair, whatever their labels |
| `Dags.Dag.Rebuild` | crates/kovanica-dag/src/reachability.rs:58-63 | After any run, a freshly built oracle answers `is_ancestor` and `is_chain_ancestor` as the incremental one does |
| `Graphs.AppendLeaf` | crates/kovanica-dag/src/dag.rs:475-487 | Appending a block whose parents are present and whose id is new keeps the DAG acyclic and changes no existing past |
| `Dags.Dag.AncestryIsExact` | crates/kovanica-dag/src/dag.rs:334-342 | In every reachable DAG, `is_ancestor` is strict ancestry and `in_anticone` is being unrelated and different |
| `Dags.Dag.MergesetOrdered` | crates/kovanica-dag/src/dag.rs:353-381 | The bounded backward walk returns the past of the parents that is not the selected parent or its past, each block once, in the one topological order |
| `StoredData.MergesetSpelledOut` | crates/kovanica-dag/src/dag.rs:353-381 | The mergeset of a stored block holds exactly its ancestors that are neither its selected parent nor ancestors of that, ascending by past size and then id |
| `MergesetWalk.WalkDone` | crates/kovanica-dag/src/dag.rs:362-381 | When the queue is empty, exactly the mergeset has been collected |
| `Ghostdag.ListsUnique` | crates/kovanica-dag/src/ordering.rs:119-125 | There is only one way to list a set of blocks by past size and id |
| `Dags.Dag.ComputeGhostdag` | crates/kovanica-dag/src/ghostdag.rs:31-91 | The data computed is what the parents determine: heaviest parent, greedy k-cluster verdicts over the mergeset, exact anticone sizes, score and work |
| `Dags.Dag.TryColourBlue` | crates/kovanica-dag/src/ghostdag.rs:98-127 | A candidate is coloured blue exactly when the blue set stays a k-cluster with it, and the blues returned are exactly those in its anticone, in whatever order the map is visited |
| `Dags.Dag.ColourMergeset` | crates/kovanica-dag/src/ghostdag.rs:49-66 | Bumping sizes as blues join keeps every entry the exact number of blues in that block's anticone, and the verdicts are the greedy ones |
| `Dags.BlueWorkOf` | crates/kovanica-dag/src/ghostdag.rs:68-75 | Blue work summed incrementally is the total work of the new blue set, although only the selected parent's total is stored |
| `Ghostdag.ColouringIsCluster` | crates/kovanica-dag/src/ghostdag.rs:3-17 | Greedy colouring keeps the blue set a k-cluster: no member has more than k members in its anticone |
| `Ghostdag.VerdictsPartition` | crates/kovanica-dag/src/ghostdag.rs:49-66 | Every candidate gets exactly one verdict, and the blue set grows by exactly the blue ones |
| `StoredData.ColoursSpelledOut` | crates/kovanica-dag/src/ghostdag.rs:31-127 | Every stored block's colouring is greedy: a merged block is blue if and only if, with the blues before it, no blue then has more than k blues beside it, red otherwise; both lists ascend |
| `Consensus.NewBluesFacts` | crates/kovanica-dag/src/ghostdag.rs:43-91 | The blue set of a block is its selected parent's, that parent and the merged blues, all disjoint, inside its past and a k-cluster; blues and reds together are the mergeset |
| `ChainSelection.ColouringIsExact` | crates/kovanica-dag/src/dag.rs:106-122 | For every stored block: the anticone sizes are keyed by its blue set, which lies in its past; each is exactly the number of its blues unrelated to that block and at most k; blue score is their number and blue work their total work |
| `Dags.Dag.Check` | crates/kovanica-dag/src/dag.rs:475-523 | The rules are tried in the order structure, validator, difficulty, proof of work; the first one broken is the error |
| `Dags.Dag.Insert` | crates/kovanica-dag/src/dag.rs:475-559 | A refused block changes nothing; an accepted one is stored with the data its past determines, `past_size` the number of its strict ancestors, the tips lose its parents and gain it, and the oracle is exact again; with difficulty on it carries exactly the required work and is no earlier than any parent |
| `Dags.Dag.constructor` | crates/kovanica-dag/src/dag.rs:173-206 | A new DAG holds only genesis and satisfies the whole invariant |
| `Dags.Dag.Preview` | crates/kovanica-dag/src/dag.rs:442-465 | The preview names the selected parent and mergeset that inserting the block would give it, or the structural error |
| `Acceptance.Run` | crates/kovanica-dag/src/dag.rs:475-559 | The consensus invariant holds after every run of inserts from genesis, refused blocks included |
| `Consensus.ConsistentStep` | crates/kovanica-dag/src/dag.rs:506-559 | Storing a new entry with its derived data makes no stored entry stale: colouring, past sizes, children and tips stay what the graph determines |
| `Consensus.PastSplits` | crates/kovanica-dag/src/dag.rs:524-526 | The past of a block is its selected parent, that parent's past and the mergeset, disjointly, so `past_size` counts its strict ancestors |
| `Consensus.AgreeDerive` | crates/kovanica-dag/src/ghostdag.rs:19-27 | GHOSTDAG data depends only on the blocks of the past |
| `ChainSelection.Convergence` | crates/kovanica-dag/src/ghostdag.rs:19-27 | Two consistent DAGs with the same blocks have equal GHOSTDAG data, past sizes, children and tips |
| `Acceptance.RunsConverge` | crates/kovanica-dag/src/dag.rs:475-559 | The same blocks accepted in any two orders, under any rules, leave equal DAGs |
| `Replay.ReplayRebuilds` | crates/kovanica-dag/src/dag.rs:475-559 | Re-inserting a DAG's blocks in any order with parents first accepts each of them and rebuilds the same DAG |
| `ChainSelection.KeyGrows` | crates/kovanica-dag/src/dag.rs:344-351 | `chain_key` strictly increases along every parent edge, not only along selected parents |
| `ChainSelection.TipIsHeaviest` | crates/kovanica-dag/src/ordering.rs:44-51 | The heaviest tip is the heaviest block of the whole DAG |
| `ChainSelection.TipMovesOnlyToNew` | crates/kovanica-dag/src/ordering.rs:44-51 | An insert keeps the selected tip or moves it to the new block, the latter exactly when the new block has the larger key |
| `Dags.Dag.SelectedTip` | crates/kovanica-dag/src/ordering.rs:44-51 | Scanning the tips in any order returns the block that no stored block beats: none has more blue work, none of as much a higher blue score, and none equal in both a larger id |
| `StoredData.HeaviestSpelledOut` | crates/kovanica-dag/src/dag.rs:344-351 | Being heaviest means most blue work, then highest blue score, then largest id |
| `StoredData.SelectedParentSpelledOut` | crates/kovanica-dag/src/ghostdag.rs:31-48 | The selected parent of every stored block is, among its parents, the one with most blue work, then highest blue score, then largest id |
| `Dags.Dag.SelectedChain` | crates/kovanica-dag/src/ordering.rs:53-64 | The chain is the selected-parent path from genesis to the selected tip |
| `Dags.ChainLinks` | crates/kovanica-dag/src/ordering.rs:53-64 | Each block of the chain has the one before it as selected parent, and its order is that block's order, its mergeset, and itself |
| `Dags.Dag.Linearize` | crates/kovanica-dag/src/ordering.rs:66-102 | The loops produce order(tip), defined as order(selected parent) ++ mergeset ++ [block], followed by the side blocks in topological order |
| `StoredData.TailSpelledOut` | crates/kovanica-dag/src/ordering.rs:90-102 | Behind the selected tip's order come exactly the blocks outside its past, ascending by past size and then id |
| `Order.OrderOfIsTopological` | crates/kovanica-dag/src/ordering.rs:3-25 | The order of a block lists exactly the block and its past, each once, parents first |
| `Order.LinearizationIsTopological` | crates/kovanica-dag/src/ordering.rs:66-102 | The linearization lists every block exactly once, parents before children, and starts with the selected tip's order |
| `Order.ChainInLinearization` | crates/kovanica-dag/src/ordering.rs:20-23 | The selected chain is a subsequence of the linearization |
| `Dags.Dag.MergesetOrderOf` | crates/kovanica-dag/src/ordering.rs:104-117 | Sorting a stored block's blues and reds gives the mergeset in the order it was coloured in; empty for genesis |
| `Dags.Dag.ChainSamples` | crates/kovanica-dag/src/dag.rs:416-432 | The samples are the last `window + 1` blocks of the selected chain, oldest first |
| `Dags.Dag.CheckDifficulty` | crates/kovanica-dag/src/dag.rs:383-414 | A parent later than the block is reported before a wrong work; otherwise the work must be the one `next_work` asks for on the whole chain |
| `Dags.Dag.NextWorkTarget` | crates/kovanica-dag/src/dag.rs:277-287 | The target announced is the one work that passes: a sound block on these parents meets the difficulty rule if and only if it carries that work and is no earlier than any parent |
| `Difficulty.RetargetExact` | crates/kovanica-dag/src/difficulty.rs:70-99 | For any works and times: the last `window + 1` works are averaged, rounding down, scaled by expected over actual time, clamped within the factor and floored, each sum and product stopping at the largest word |
| `Difficulty.NothingToMeasure` | crates/kovanica-dag/src/difficulty.rs:70-81 | With fewer than two samples the floor is returned |
| `Acceptance.TimesSpelledOut` | crates/kovanica-dag/src/dag.rs:416-432 | The samples are the time and work of each block of the selected parent's chain, oldest first |
| `Acceptance.DifficultySpelledOut` | crates/kovanica-dag/src/dag.rs:385-414 | The first parent later than the block is reported; with none, the work must be the retarget of the samples |
| `Acceptance.StructureSpelledOut` | crates/kovanica-dag/src/dag.rs:475-487 | A stored id is reported first, then an empty parent list, then the first parent that is missing |
| `Acceptance.RunTimesMonotone` | crates/kovanica-dag/src/dag.rs:222-247 | With difficulty enforced from genesis, timestamps never decrease along any ancestor path of any run |
| `Difficulty.NextWorkBounded` | crates/kovanica-dag/src/difficulty.rs:70-99 | The work is never below the floor and otherwise within the factor of the sampled average |
| `Difficulty.ClampNeverInverts` | crates/kovanica-dag/src/difficulty.rs:93-98 | The clamp's lower bound never exceeds its upper one, saturated or not |
| `Difficulty.FasterIsHarder` | crates/kovanica-dag/src/difficulty.rs:70-99 | With equal works, a shorter measured timespan never lowers the required work |
| `Difficulty.SteadyStateIsFixed` | crates/kovanica-dag/src/difficulty.rs:70-99 | Equal works arriving on target leave the work unchanged when nothing saturates |
| `Difficulty.OnlyWindowMatters` | crates/kovanica-dag/src/difficulty.rs:70-78 | Samples older than the window never matter |
| `Pow.ComputeMeetsTarget` | crates/kovanica-dag/src/pow.rs:38-82 | The limb product returns true exactly when H * max(work, 1) < 2^256, for every 256-bit H and 128-bit work |
| `Pow.MultiplyRow` | crates/kovanica-dag/src/pow.rs:58-77 | One row of the schoolbook product adds exactly limb times work at its place, every limb staying below 2^64 |
| `Pow.StepFits` | crates/kovanica-dag/src/pow.rs:63-68 | No intermediate product-plus-carry overflows 128 bits |
| `Pow.NoCarryLost` | crates/kovanica-dag/src/pow.rs:69-76 | No carry is left over when it would leave the sixth limb |
| `Pow.LimbsOfId` | crates/kovanica-dag/src/pow.rs:42-53 | The four words read from the digest's bytes spell the 256-bit number those bytes stand for |
| `Pow.MinesLeastNonce` | crates/kovanica-dag/src/pow.rs:90-110 | `mine_from` changes only the nonce and returns the least one at or after the start that passes; it fails exactly when none does |
| `Blocks.ParentOrderIrrelevant` | crates/kovanica-dag/src/block.rs:76-96 | Listing the same parents in another order, or twice, gives the same block and id |
| `Blocks.SortIdsSorts` | crates/kovanica-dag/src/block.rs:80-96 | A block's parents end up ascending, without repetition, with the same members |
| `Bytes.Digits` | crates/kovanica-dag/src/block.rs:143-172 | Byte i of a little-endian number is its digit of weight 256 to the i, and big-endian bytes run the other way |
| `WireForms.BlockBytes` | crates/kovanica-dag/src/block.rs:143-172 | Where each field stands in the bytes whose digest is a block's id |
| `Encodings.SharedFront` | crates/kovanica-state/src/tx.rs:294-316 | Of two encoded lists over a self-delimiting encoding, the shorter can only be the front of the longer |
| `Encodings.CountRefusesList` | crates/kovanica-state/src/tx.rs:351-360 | The length guard refuses no count that a valid encoding could carry |
| `Encodings.DecodeEncode` | crates/kovanica-state/src/tx.rs:294-316 | Decoding an encoded list gives the list back, and reports anything after it as trailing bytes |
| `Encodings.Reader.ReadCount` | crates/kovanica-state/src/tx.rs:351-360 | A count is returned only if that many elements can still follow, and refused only if they cannot |
| `Transactions.EncodeInto` | crates/kovanica-state/src/tx.rs:229-248 | Appends exactly the transaction's encoding to the buffer, with or without signatures |
| `WireForms.TransactionBytes` | crates/kovanica-state/src/tx.rs:229-248 | Where each field of a transaction stands in its signed and its unsigned bytes |
| `WireForms.SigHashIgnoresSignatures` | crates/kovanica-state/src/tx.rs:257-263 | Transactions that differ only in signatures have the same signature hash |
| `WireForms.SigningBytesCover` | crates/kovanica-state/src/tx.rs:257-263 | The bytes signed determine every outpoint, output and the tag |
| `Transactions.TxsSplit` | crates/kovanica-state/src/tx.rs:229-248 | No two transactions share an encoding, whatever bytes follow |
| `Transactions.EncodeBlockPayload` | crates/kovanica-state/src/tx.rs:291-301 | The buffer built is the length-prefixed concatenation of the encodings |
| `Payload.ReadTransaction` | crates/kovanica-state/src/tx.rs:362-390 | The reader takes exactly one encoded transaction off the front, or none begins there |
| `Payload.DecodeBlockPayload` | crates/kovanica-state/src/tx.rs:303-316 | The reader's outcome is the transactions whose encoding the bytes are, and otherwise end-of-input or trailing bytes |
| `Payload.PayloadRoundTrip` | crates/kovanica-state/src/tx.rs:294-316 | Decoding an encoded payload returns the list |
| `Payload.PayloadCanonical` | crates/kovanica-state/src/tx.rs:294-316 | Whatever bytes are accepted re-encode to themselves, so the codec is a bijection onto accepted bytes |
| `Snapshots.BlocksSplit` | crates/kovanica-dag/src/snapshot.rs:136-148 | No two blocks share a stored encoding, whatever bytes follow |
| `Snapshots.BlockRoundTrip` | crates/kovanica-dag/src/snapshot.rs:136-158 | A stored block decodes to itself if and only if its parents are ascending, as `Block::new` keeps them |
| `Snapshots.DecodeBlock` | crates/kovanica-dag/src/snapshot.rs:150-158 | The reader's outcome is the block whose encoding the bytes are, parents sorted |
| `Snapshots.ReadBlock` | crates/kovanica-dag/src/snapshot.rs:216-231 | The reader takes exactly one stored block off the front, or none begins there |
| `Snapshots.DecodeSnapshot` | crates/kovanica-dag/src/snapshot.rs:109-132 | Magic, version, parameter and blocks are read in that order, each with its own error |
| `Snapshots.HeaderSpelledOut` | crates/kovanica-dag/src/snapshot.rs:80-132 | The eight leading bytes written, and the error for any other letters or version |
| `Snapshots.SnapshotDecodes` | crates/kovanica-dag/src/snapshot.rs:80-132 | Decoding a written snapshot gives its parameter and blocks back |
| `Snapshots.WriteSnapshot` | crates/kovanica-dag/src/snapshot.rs:80-92 | The bytes hold the parameter and the blocks in linearized order |
| `Snapshots.ReadSnapshot` | crates/kovanica-dag/src/snapshot.rs:94-106 | Reading replays the blocks from the first one and succeeds exactly when every insert does; otherwise the error is that of the first insert refused |
| `Snapshots.SnapshotRestores` | crates/kovanica-dag/src/snapshot.rs:80-106 | Reading back what was written always succeeds and gives the same blocks, colouring, past sizes, children and tips |
| `Snapshots.Restore` | crates/kovanica-dag/src/snapshot.rs:80-106 | Write, read and write again: the copy is the original and the bytes are the same |
| `Utxos.UtxoSet.Insert` | crates/kovanica-state/src/utxo.rs:37-40 | The entry is set, any displaced output returned, and the total grows by its value when nothing was displaced |
| `Utxos.UtxoSet.Remove` | crates/kovanica-state/src/utxo.rs:42-45 | The entry is gone, returned, and its value off the total |
| `Utxos.UtxoSet.TotalValue` | crates/kovanica-state/src/utxo.rs:62-66 | Adding the values up in any order gives the one total |
| `Apply.ApplyRegular` | crates/kovanica-state/src/ledger.rs:178-233 | The loops return the first error in order, or spend the inputs, add the outputs and return the fee |
| `Apply.RegularIff` | crates/kovanica-state/src/ledger.rs:178-233 | A spend applies if and only if it has inputs that are all unspent, different, correctly signed, positive outputs whose outpoints are free, sums that fit a word, and spends at least what it creates |
| `Apply.RegularChanges` | crates/kovanica-state/src/ledger.rs:178-233 | Applying a spend removes the outputs it spends, adds those it creates, and changes no other entry |
| `Apply.OutputsFreshIff` | crates/kovanica-state/src/ledger.rs:257-267 | The outputs can be added if and only if none of their outpoints is taken and their 32-bit indices do not wrap round |
| `Apply.ApplyCoinbase` | crates/kovanica-state/src/ledger.rs:235-255 | The coinbase's outputs are added and the amount minted returned, or the first error reported |
| `Apply.CoinbaseMints` | crates/kovanica-state/src/ledger.rs:235-255 | A coinbase adds exactly what it mints, at most its allowance |
| `Apply.ApplyBlock` | crates/kovanica-state/src/ledger.rs:132-176 | A block applies as a whole or leaves the set as it was |
| `Apply.BlockConserves` | crates/kovanica-state/src/ledger.rs:132-176 | A block that applies changes the total by minted minus fees, with minted at most subsidy plus fees |
| `Apply.BlockIff` | crates/kovanica-state/src/ledger.rs:132-176 | A block applies if and only if its transactions can be taken one after another, each spend valid on what the ones before leave, and a leading coinbase claims at most subsidy and fees under free outpoints; the set it leads to is stated entry by entry |
| `Apply.BlockHasTrail` | crates/kovanica-state/src/ledger.rs:132-176 | A block that applies can be taken that way |
| `Apply.CoinbaseIff` | crates/kovanica-state/src/ledger.rs:235-255 | A coinbase applies if and only if its outputs have values, at most the allowance in all, and free outpoints; it adds exactly its outputs |
| `Apply.InputStep` | crates/kovanica-state/src/ledger.rs:186-206 | The next input's error, if any: spent twice, missing, badly signed, or an overflow, in that order, and it is the error of the whole list |
| `Validation.ValidateTxStructure` | crates/kovanica-state/src/validation.rs:113-150 | A transaction passes exactly when it is well structured; otherwise the error is the first thing wrong with it in the order of the checks |
| `Validation.ValidateBlockPayload` | crates/kovanica-state/src/validation.rs:102-110 | A payload passes exactly when it decodes to well-structured transactions; otherwise the first bad one is named with the first thing wrong with it |
| `Validation.ExplainsOne` | crates/kovanica-state/src/validation.rs:113-150 | A transaction has at most one first thing wrong, so the error reported is determined |
| `Validation.AppliedIsStructured` | crates/kovanica-state/src/validation.rs:1-20 | Whatever the ledger applies passes the structural validator |
| `Ledgers.ApplyDag` | crates/kovanica-state/src/ledger.rs:282-306 | The batch fold: each payload of the linearization applied in order, the failing ones recorded with their error |
| `Ledgers.EveryTurn` | crates/kovanica-state/src/ledger.rs:290-306 | In a run over different blocks, a payload that does not decode or apply is recorded with its error and leaves the set as it was; any other block is accepted and the set becomes what its transactions make of it |
| `Ledgers.ApplyPayloadTo` | crates/kovanica-state/src/ledger.rs:290-306 | Either there is an objection and the set is untouched, or the payload decodes and applies and the set is its outcome |
| `States.BlockTurn` | crates/kovanica-state/src/ledger.rs:549-566 | Adding a block to any order leaves the fold alone unless the block applies to it, and then gives its outcome |
| `States.RejectedLeaveNoTrace` | crates/kovanica-state/src/ledger.rs:282-306 | The accepted blocks alone, in their order, all apply again and lead to the same set |
| `Ledgers.DagSupply` | crates/kovanica-state/src/ledger.rs:282-306 | Over any order, the total value is at most one subsidy for each accepted block |
| `Ledgers.ViewsKept` | crates/kovanica-state/src/ledger.rs:534-577 | Inserting a valid block keeps every stored state equal to the fold over that block's order, and every block valid in its own view |
| `Ledgers.Ledger.Insert` | crates/kovanica-state/src/ledger.rs:503-577 | The outcome is the first failing check in order, with the ledger unchanged, or the block stored with its state and the newly final states dropped; the state lookup misses if and only if the selected parent is not final and has no stored state; every stored state stays the fold over its order |
| `Ledgers.OutcomeSpelledOut` | crates/kovanica-state/src/ledger.rs:503-577 | The outcome of an insert over stored scores: structure, then finality, then the missing state, then the transactions, then the other rules |
| `Ledgers.Ledger.Prepare` | crates/kovanica-state/src/ledger.rs:529-570 | Finality, the state lookup and the block's transactions are checked against the selected parent's state plus the mergeset |
| `Ledgers.Ledger.Prune` | crates/kovanica-state/src/ledger.rs:579-602 | Exactly the states of blocks more than the depth below the selected tip's blue score are dropped, the others unchanged |
| `Ledgers.Ledger.FinalityScore` | crates/kovanica-state/src/ledger.rs:476-486 | The threshold is the selected tip's blue score less the depth, never below zero, and zero when unbounded |
| `Ledgers.Ledger.LedgerState` | crates/kovanica-state/src/ledger.rs:604-633 | The state built from the selected tip's stored state equals the batch fold over the whole linearization, pruned or not |
| `Ledgers.ChainAccepted` | crates/kovanica-state/src/ledger.rs:358-381 | The batch run accepts every block of the selected chain |
| `Ledgers.LedgersConverge` | crates/kovanica-state/src/ledger.rs:358-381 | Two ledgers with the same blocks, whatever their arrival order and pruning, have the same DAG, tips and state for every block both store |
| `States.FoldAppend` | crates/kovanica-state/src/ledger.rs:290-306 | Folding one order after another is folding their concatenation |
| `States.ViewSteps` | crates/kovanica-state/src/ledger.rs:549-570 | A block's state is its selected parent's, then the mergeset, then the block: the incremental step is the fold over its order |
| `States.SameView` | crates/kovanica-state/src/ledger.rs:358-381 | A block's state depends only on its past |
| `Finality.FinalityFallsIff` | crates/kovanica-state/src/ledger.rs:579-583 | The threshold falls on an insert if and only if the finality is bounded, the selected tip scores above the depth, and the new block outweighs it with a lower blue score |
| `Finality.UniformFinalityRises` | crates/kovanica-state/src/ledger.rs:579-583 | With equal work on all non-genesis blocks the threshold never falls |
| `Finality.FinalityCanFall` | crates/kovanica-state/src/ledger.rs:579-583 | A concrete run of seven blocks at depth 3 whose threshold falls from 1 to 0 after the genesis state was pruned |
| `Finality.RetainedStep` | crates/kovanica-state/src/ledger.rs:579-602 | As long as the threshold does not fall, every block at or above it keeps a stored state |
| `Finality.TipStateKept` | crates/kovanica-state/src/ledger.rs:579-602 | The selected tip's state survives every insert, whatever the works |
| `Ledgers.InsertRetains` | crates/kovanica-state/src/ledger.rs:579-602 | With finality off, or with equal work throughout, an insert keeps the state of every block that may still be built on |
| `Ledgers.FinalityFallsInLedger` | crates/kovanica-state/src/ledger.rs:579-583 | On that run, with empty payloads, the ledger inserts each of the six blocks after genesis, and the threshold falls |
| `Ledgers.LookupCanMiss` | crates/kovanica-state/src/ledger.rs:534-553 | After that run of real inserts a further block on genesis passes the finality check and finds no state |
| `Ledgers.NewLedger` | crates/kovanica-state/src/ledger.rs:414-445 | A ledger is created exactly when the genesis transactions apply to the empty set; its only state is their result |
| `LedgerSnapshots.WriteLedger` | crates/kovanica-state/src/ledger.rs:635-646 | The bytes hold the subsidy and the DAG's snapshot |
| `LedgerSnapshots.ReadLedger` | crates/kovanica-state/src/ledger.rs:648-687 | Reading succeeds exactly when the frame decodes, the genesis applies and every block inserts, and the result keeps a state for every block; otherwise the error is that of the first stage or block that fails |
| `LedgerSnapshots.ValidReplays` | crates/kovanica-state/src/ledger.rs:648-687 | A DAG whose blocks are valid in their own views replays through a fresh ledger without a refusal |
| `LedgerSnapshots.LedgerRestores` | crates/kovanica-state/src/ledger.rs:635-687 | Reading back what was written always succeeds and rebuilds the same DAG |
| `LedgerSnapshots.RestoreLedger` | crates/kovanica-state/src/ledger.rs:635-687 | The restored ledger has the same DAG and tips, the same state for every block the original still stores, and writes the same bytes |
| `Production.IssuanceDecays` | crates/kovanica-node/src/node.rs:304-312 | Issuance never rises with height |
| `Production.IssuanceHalves` | crates/kovanica-node/src/node.rs:304-312 | The cap for the first thousand heights, half of it for each further thousand, nothing after 63 eras |
| `Production.IssuanceShape` | crates/kovanica-node/src/node.rs:562-577 | The coinbase pays issuance and fees to the miner under the tag of the timestamp; there is none without a miner or an amount |
| `Production.FeeOf` | crates/kovanica-node/src/node.rs:703-712 | The fee is the value of the known inputs, at most a word, less the outputs, never below zero |
| `Production.PickedApply` | crates/kovanica-node/src/node.rs:511-522 | The transactions picked one by one form a valid run in that order, collecting exactly the value the working state lost |
| `Production.FeesUnderstated` | crates/kovanica-node/src/node.rs:526-526 | Fees looked up in the original state never exceed the fees really paid, even when a picked transaction spends another's output |
| `Production.FeesExact` | crates/kovanica-node/src/node.rs:526-526 | Those fees are all that is paid, unless a picked transaction spends what another candidate creates |
| `Production.AssembledApplies` | crates/kovanica-node/src/node.rs:503-542 | Coinbase and picked transactions together apply to the state they were picked on, if and only if the coinbase's outpoint is free there; otherwise the error names that outpoint |
| `Production.TipsSeeEverything` | crates/kovanica-node/src/node.rs:528-531 | A block on all tips has every block in its past and the selected tip as selected parent |
| `Production.TipsPreState` | crates/kovanica-node/src/node.rs:503-542 | The state a block on all tips is checked against is the full ledger state |
| `Production.TipsBlockInserted` | crates/kovanica-node/src/node.rs:503-542 | A block on all tips whose transactions apply to the full state, with the announced work, a later time and a passing nonce, is always inserted |
| `Production.TipsBlockRefused` | crates/kovanica-node/src/node.rs:503-542 | A block on all tips whose transactions do not apply to the full state is never inserted, and the refusal carries the error of applying them |
| `FullNodes.NextTimestamp` | crates/kovanica-node/src/node.rs:185-198 | The timestamp is the least one that is not before now and after every parent |
| `FullNodes.MineNonce` | crates/kovanica-node/src/node.rs:200-228 | The nonce is zero without proof of work and passes with it, unless no nonce does |
| `FullNodes.SelectTxs` | crates/kovanica-node/src/node.rs:511-522 | Each candidate in turn is the next one selected if it applies to the set the ones selected before it lead to, and is left out if it does not |
| `Production.PickedIsGreedy` | crates/kovanica-node/src/node.rs:511-522 | No candidate that applies when its turn comes is left out, and the selected ones keep their order |
| `Production.SelectionIsComplete` | crates/kovanica-node/src/node.rs:511-522 | At every candidate's turn those selected so far are a valid run on the state; the candidate is the next selected, or does not apply to what that run leaves |
| `FullNodes.Ordered` | crates/kovanica-node/src/mempool.rs:58-64 | The pending transactions, each once, in strictly ascending id order |
| `FullNodes.RemoveAll` | crates/kovanica-node/src/mempool.rs:66-71 | Exactly the included transactions leave the pool |
| `FullNodes.EvictInvalid` | crates/kovanica-node/src/mempool.rs:73-87 | Exactly the pending transactions all of whose inputs are unspent remain, in whatever order the pool is visited |
| `FullNodes.AttemptInserted` | crates/kovanica-node/src/node.rs:503-542 | With total value and subsidy fitting a word and no digest collision, the block assembled passes the insert if and only if its coinbase's outpoint is not already taken; otherwise it is refused for exactly that outpoint |
| `Coinbases.CoinbaseCanBeTaken` | crates/kovanica-node/src/node.rs:503-542 | A concrete run: a genesis gift, a peer's valid block whose coinbase has the tag of a future time, and a pending payment without a fee; at that time every block on all tips is refused, its coinbase being the peer's |
| `Coinbases.HonestCoinbaseIsNew` | crates/kovanica-node/src/node.rs:503-542 | With times that never decrease and every coinbase tagged with its own block's time, the coinbase of a block on all tips is new |
| `Coinbases.HonestBlockEnters` | crates/kovanica-node/src/node.rs:503-542 | After any run with difficulty enforced and coinbases tagged with their blocks' times, the block assembled on all tips is inserted |
| `FullNodes.FullNode.SubmitTx` | crates/kovanica-node/src/node.rs:484-493 | A coinbase is refused; a pending transaction changes nothing; any other joins the pool |
| `FullNodes.FullNode.ProduceBlock` | crates/kovanica-node/src/node.rs:495-542 | With nothing to include nothing changes; otherwise a block on all tips carries the picked transactions, goes in if and only if its coinbase is new (given no digest collision and a nonce), and exactly the pending transactions it does not carry and whose inputs are all unspent after it stay |
| `Gossip.Mesh.Deliver` | crates/kovanica-node/src/p2p.rs:397-414 | Delivering a message records the event, dispatches it, keeps every promise about the messages in flight, and leaves strictly less to deliver |
| `Gossip.Delivered` | crates/kovanica-node/src/p2p.rs:397-480 | Each kind of delivery preserves all invariants and strictly lowers the measure over missing edges, unseen items and queue length |
| `Gossip.Mesh.OnHello` | crates/kovanica-node/src/p2p.rs:416-434 | Afterwards the receiver's peers are exactly its old ones, the sender, and the advertised nodes there are; whoever is new is greeted once with all of them |
| `Gossip.PeersMeet` | crates/kovanica-node/src/p2p.rs:416-434 | At any time of a run, of two peers of one node one knows the other, or a hello in flight brings one of them to the other, which greets it |
| `Gossip.StepMeets` | crates/kovanica-node/src/p2p.rs:397-480 | Every delivery keeps each edge reversed or about to be, and the peers of each node known to each other or about to be |
| `Gossip.AllMet` | crates/kovanica-node/src/p2p.rs:203-220 | At idle edges run both ways and any two peers of a node are peers of each other |
| `Gossip.ReachedIsPeer` | crates/kovanica-node/src/p2p.rs:203-220 | At idle whoever is reached over any number of edges is a peer |
| `Gossip.Mesh.OnBlock` | crates/kovanica-node/src/p2p.rs:436-460 | A block already seen is ignored; a new one is remembered, and if accepted sent once to every peer but the sender |
| `Gossip.Mesh.OnTx` | crates/kovanica-node/src/p2p.rs:462-480 | A transaction already seen is ignored; a new one is remembered and, unless a coinbase, sent once to every peer but the sender |
| `Gossip.Mesh.Tick` | crates/kovanica-node/src/p2p.rs:182-201 | Every queued message is due and delivered; what is left falls by at least their number |
| `Gossip.Mesh.Drain` | crates/kovanica-node/src/p2p.rs:203-215 | The total delivered is bounded by the measure, a limit of that size always reaches idle, and at idle every relayed block and announced transaction has reached whom it was promised to and peers all know each other |
| `Gossip.Mesh.Connect` | crates/kovanica-node/src/p2p.rs:155-172 | An unknown node is refused, the sender first; a new edge is added and greeted, an old one or a loop changes nothing |
| `Gossip.Mesh.Add` | crates/kovanica-node/src/p2p.rs:121-128 | A new node starts without peers and with nothing seen; a known name keeps both |
| `Gossip.Mesh.AnnounceTx` | crates/kovanica-node/src/p2p.rs:373-383 | The announcer remembers the transaction and sends it to every peer; a flood over the present edges begins |
| `Gossip.Mesh.AnnounceBlock` | crates/kovanica-node/src/p2p.rs:355-371 | The announcer remembers the block and sends it to every peer |
| `Gossip.AnnouncementsFlood` | crates/kovanica-node/src/p2p.rs:373-383 | A first announcement always starts a flood, and so does every further one over the same edges |
| `Gossip.TxFloods` | crates/kovanica-node/src/p2p.rs:462-480 | Delivering any transaction keeps every flood going: whoever has seen it has passed it to each peer of the flood's graph, or the message is on its way |
| `Gossip.OthersFlood` | crates/kovanica-node/src/p2p.rs:416-460 | Blocks and hellos, which only add edges, keep every flood going |
| `Gossip.FloodArrives` | crates/kovanica-node/src/p2p.rs:203-220 | At idle, an announced transaction has been seen by every node reachable from its announcer over the edges of the time |

## Left out

- Dags.Dag.Insert: `k` and the anticone sizes are unbounded naturals, so the 16-bit addition for `k` = 65535 is not modelled; blue work is unbounded, so its 128-bit overflow is not; and the DAG holds fewer blocks than the root interval has points, as the source assumes.
- Dags.Dag.Rebuild: requires that a genesis block does not list stored blocks as its parents, which no genesis of this system does.
- Oracle.Reachability.Build: likewise; a snapshot made by hand could hold such a genesis.
- Oracle.Reachability.InsertToFutureCoveringSet: says what the entries cover, not their order or number; whether they stay sorted and minimal is not stated, and no answer depends on it.
- Oracle.Reachability.RelayoutSubtree: states order, room and frame of the new labels; the exact proportional slices are stated one block at a time by `LayChildren`.
- Acceptance.Run: a validator is any function of the block; one that also consults the DAG could make acceptance depend on arrival order.
- Snapshots.ReadSnapshot: the input is shorter than 2^64 bytes.
- LedgerSnapshots.ReadLedger: likewise.
- LedgerSnapshots.RestoreLedger: DAG size, lists and payloads fit the 16- and 64-bit fields that store them.
- Production.FeeOf: output sums are not wrapped at 64 bits; transactions that apply never overflow them.
- Production.PickedApply: the state's total value fits a 64-bit word; `Ledgers.DagSupply` bounds it by one subsidy per accepted block.
- Production.AssembledApplies: that total and one more subsidy fit a word.
- FullNodes.AttemptInserted: likewise.
- Coinbases.HonestCoinbaseIsNew: no other stored or pending transaction has the coinbase's digest.
- Coinbases.HonestBlockEnters: likewise, and total value plus subsidy fits a word.
- FullNodes.FullNode.ProduceBlock: total value plus subsidy fits a word, parent timestamps are below the largest one, and there is room for one more block; the clock is a parameter.
- Gossip.Mesh.OnBlock: whether the receiving node accepts a block is an arbitrary choice at each delivery, so the results hold for every node behaviour; a block refused after being marked seen is never tried again, and no convergence of the nodes' DAGs is claimed.
- Gossip.Mesh.Add: the node stored under a name is not modelled, only its place in the overlay.
- Gossip.Mesh.OnHello: a node's peers are listed in some order rather than sorted; the message content is the same set.
- Reason texts inside error values, error display, hexadecimal forms and accessors.
- Recombining the mesh with full nodes (`produce`, `send`, `pool` of the mesh), which only chain modelled operations.
- `produce_empty`, transfers, wallet helpers and the future-drift check of received blocks.
- Block-by-block append logs (`store.rs`) and wire records (`net.rs`, `relay.rs`), whose codecs repeat those modelled.
- Key handling, sockets, files, HTTP, the explorer, RPC, command parsing and libp2p.
- Performance claims, such as constant-time queries or draining within the overlay's diameter.
