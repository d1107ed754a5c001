# Bitcoin canister: chain state, wrapped ledger, base-58 codec and coin selection

A Dafny model of the parts of the repository that decide what is true about money: which
blocks are stable, who owns which output, how the wrapped-bitcoin ledger backs its balances,
how a private key is rendered, and which coins a transfer spends. `dafny verify
dfyconfig.toml` checks every file.

**Chain state** (`canister/src`). `BlockTrees` and `CurrentChain` hold the trees of connected
blocks and three views of the current chain: the canister's enumeration of all paths, the
longest common prefix of the longest paths, and a descent by depth. `ForestSteps` says what
one push and one pop do; `Stabilisation`, `Pushing`, `PushOrder` and `OrderMatters` prove what
they keep, and when the order of pushing matters. `Tips` compares the chain that the
documentation describes with the one that is computed. `TreeWalks` and `BlockForests` are the
canister's loops, proved equal to those specifications. `UtxoSets` holds the set of unspent
outputs with its address index, and `TxSteps` one transaction input by input and output by output;
`Replay` compares replays over one address's slice with
replays over everything; `Store` is the whole state; `Queries`, `Runs` and `Supply` prove what
queries and whole runs guarantee. `Proto` is the stored form of the state.

**Wrapped ledger** (`examples/motoko/src/BTConICP.mo`). `Pools` is the greedy draw from the
backing accounts, `WrappedBitcoin` the ledger and its messages.

**Codec** (`tests/Utils.mo`, `tests/BitcoinEncryption.mo`). `Digits` is positional notation,
`Codec` the conversions and the wallet import format.

**Coin selection** (`examples/common/src/lib.rs`, `examples/rust/src/main.rs`).
`CoinSelection` builds transfers and keeps the cache of spent outpoints.

How the source's notions appear:

- The hash of a header, the identifier of a transaction, the address of a script and SHA-256
  are uninterpreted constants of function type. Lemmas name what they need of them: hashes
  that are unique in a forest, and a rank that grows from every block to its successor (hash
  chains have no cycle). Hashes are numbers; byte strings are a length and a value.
- A panic or trap is an `Option`, or a method result `ok`. After `ok == false` nothing is
  promised about the fields, because the platform undoes the message.
- Specifications recurse over a forest (a sequence of trees), and the methods that walk one
  tree are proved against them.
- Output sets are maps. `UtxoSet.repeated` is a ghost set of the index entries, an address and
  an outpoint, whose output was created again while unspent, which only the two exempted
  transactions of BIP 30 can do. For an address without such entries the index is exact.
- `Store.Snapshot` is what queries see of a state: the stable set, its height, and the current
  chain. `AnswerOf` is what the canister computes from it, over one address's slice;
  `Queries.AnswerIsFull` proves it equal to the filtered replay over the whole set.
- Every lemma switches automatic induction off, so that each proof is the one written.

Results that a reader of the source may not expect:

- The comment on `get_current_chain` (`canister/src/blockforest.rs:97-99`) asks that no other
  block has the tip's height. The code asks only that no other *longest* path has one. The
  model follows the code; the documented chain is always a prefix of the computed one, and the
  same if and only if, at every level of the computed chain, the trees off the chain end before
  its tip (`Tips.DocumentedIsPrefix`). `OrderMatters.ShorterForkIsIgnored` is an example.
- A push takes in only the first tree that waits for the block; a second one stays where it is,
  waiting for a block that is there, and the current chain then depends on the order of pushing
  (`OrderMatters.OrderMayMatter`). It is taken in when the awaited block is pushed again
  (`Pushing.PushWaiting`, `OrderMatters.ParentAgain`), and attached when that block is popped,
  which the current chain may then show (`Stabilisation.StabilisationWithWaiting`,
  `OrderMatters.ParentPopped`). The orders without such trees are exactly those in which no
  block comes after two of its successors (`PushOrder.ClosedIffReady`).
- Pushing the root of such a tree again, when the tree stands behind its predecessor's, adds the
  block a second time (`Pushing.PushOvertaken`).
- A block is recorded at the height before the increment when it is settled
  (`canister/src/store.rs:126-129`) but shown one higher while it is unstable
  (`canister/src/store.rs:85`). So settling keeps outputs and balances, and lowers the heights
  of the settled block's outputs by one (`Queries.SettlingKeepsView`).
- That holds for queries with at most as many confirmations as the current chain has blocks.
  With one more, what the settled block spends and creates shows (`Queries.BeyondTheChain`).
- An unwrap can only fail on its last and smallest piece (`WrappedBitcoin.UnwrapKeepsSound`).
- A ledger transfer to oneself adds its value to the balance (`WrappedBitcoin.SendConserves`).
- A transfer whose coins cover the amount but not the fees is not refused: the subtraction at
  `examples/common/src/lib.rs:69` underflows (`CoinSelection.WhenTransferSucceeds`).

## Model

| member | source | states |
|---|---|---|
| CurrentChain.ChainIsDescent | canister/src/blockforest.rs:100-146 | with unique hashes, enumerating all paths and intersecting the longest gives the longest common prefix of the longest paths, and equals following the unique strictly deepest tree until a tie |
| CurrentChain.DescendIsCurrentChain | canister/src/blockforest.rs:117-145 | the descent by depth is the longest common prefix of the longest paths |
| CurrentChain.AgreedIsCurrentChain | canister/src/blockforest.rs:117-145 | comparing hashes index by index over the longest paths yields their longest common prefix, when a hash stands for one block |
| CurrentChain.CurrentChainUnique | canister/src/blockforest.rs:95-100 | the specification of the current chain has one solution |
| CurrentChain.SamePathsSameChain | canister/src/blockforest.rs:100-108 | the current chain depends on the set of paths, not on their order |
| CurrentChain.LongestIsHeight | canister/src/blockforest.rs:117-127 | the longest paths are those with one block more than the depth of the deepest tree |
| CurrentChain.PathOnSomeTree | canister/src/blockforest.rs:256-273 | the enumerated paths are exactly the root-to-leaf paths of the trees |
| CurrentChain.PathsWithin | canister/src/blockforest.rs:256-287 | every path has between one block and the height of the forest, and only blocks of the forest |
| TreeWalks.ComputeDepth | canister/src/blockforest.rs:275-287 | the loop computes the number of blocks below the root on a longest path |
| TreeWalks.Contains | canister/src/blockforest.rs:290-302 | true exactly when a block of the tree has the block's hash |
| TreeWalks.Blockchains | canister/src/blockforest.rs:256-273 | all root-to-leaf paths, left to right |
| TreeWalks.PushChild | canister/src/blockforest.rs:241-253 | finds the first node in preorder with the hash and adds a child there; `None` exactly when no node has it |
| TreeWalks.Extend | canister/src/blockforest.rs:213-229 | nothing changes if the block is present; otherwise it becomes the last child of its predecessor, or is refused |
| TreeWalks.ExtendAndHang | canister/src/blockforest.rs:73-85 | extending and hanging the waiting tree equals adding the block with that tree already below it |
| TreeWalks.LongestLength | canister/src/blockforest.rs:117-121 | the length of the longest path |
| TreeWalks.Filter | canister/src/blockforest.rs:123-127 | the paths of that length, in order |
| TreeWalks.CommonBlocks | canister/src/blockforest.rs:129-145 | the blocks of the first path up to the first disagreement |
| BlockForests.BlockForest.constructor | canister/src/blockforest.rs:16-21 | an empty forest with the given delta |
| BlockForests.BlockForest.TakeTree | canister/src/blockforest.rs:148-155 | takes out the first tree that waits for the hash, and no other |
| BlockForests.BlockForest.Push | canister/src/blockforest.rs:68-93 | the forest becomes `Pushed` of the old one |
| BlockForests.BlockForest.Pop | canister/src/blockforest.rs:24-65 | result and forest are `Popped` of the old forest; comparing the last two sorted trees decides stability, and the subtraction of depths does not underflow |
| BlockForests.BlockForest.GetCurrentChain | canister/src/blockforest.rs:100-146 | returns the current chain above the anchor |
| ForestSteps.TwoDeepestDecide | canister/src/blockforest.rs:30-50 | comparing only the two deepest sorted trees decides stability against all trees |
| ForestSteps.SortEndsDeepest | canister/src/blockforest.rs:30-31 | the stable sort puts the last of the deepest trees at the end |
| ForestSteps.SortSorts | canister/src/blockforest.rs:30-31 | the sort puts shallow trees first and keeps the order of trees of one depth |
| Stabilisation.PopsExactlyStable | canister/src/blockforest.rs:6-8 | a block is returned if and only if some attached root has depth at least delta and exceeds every other by delta; it is that root, and the root is unique for a positive delta |
| Stabilisation.StableIsDeepest | canister/src/blockforest.rs:33-52 | if any tree is stable then the last deepest one is |
| Stabilisation.PoppedFollowsAnchor | canister/src/store.rs:116-121 | the popped block follows the anchor: the assertion never fires |
| Stabilisation.PopNothing | canister/src/blockforest.rs:35-49 | a pop without a result only permutes the trees and keeps the forest well formed |
| Stabilisation.PopSomething | canister/src/blockforest.rs:52-58 | a pop leaves a well-formed forest without the new anchor, whose attached trees are the popped block's children |
| Stabilisation.PopKeepsOthers | canister/src/blockforest.rs:25-57 | the popped block is the root of a tree that follows the anchor and exceeds the others that do by delta; what remains is every tree that does not follow the anchor, in order, and then the block's children |
| Stabilisation.PopTrees | canister/src/blockforest.rs:52-58 | a tree is there after such a pop if and only if it was there and does not follow the anchor, or was below the block |
| Stabilisation.PopAccount | canister/src/blockforest.rs:24-65 | the blocks before a pop are those after it, the popped block, and those of the other trees that followed the anchor |
| Stabilisation.SortedChain | canister/src/blockforest.rs:30-31 | sorting trees does not change their current chain |
| Stabilisation.StabilisationIsInvisible | canister/src/blockforest.rs:24-65 | in a well-formed forest the chain before a pop is the popped block followed by the chain after it, if and only if the popped tree was strictly deepest; a positive delta guarantees it; without a result the chain stays |
| Stabilisation.PopTakesWaiting | canister/src/blockforest.rs:52-58 | a pop attaches the trees that waited for the popped block to the new anchor, before the trees below the block |
| Stabilisation.DescendBeside | canister/src/blockforest.rs:117-145 | trees beside a forest leave its chain alone if and only if they are less deep, or the chain is empty with and without them |
| Stabilisation.StabilisationWithWaiting | canister/src/blockforest.rs:24-65 | with trees waiting for the popped block, the chain loses exactly that block if and only if its tree was strictly deepest and the waiting trees are less deep than those below the block, or leave a tie where there was one |
| Pushing.PushConserves | canister/src/blockforest.rs:68-93 | for a fresh block the multiset of blocks grows by exactly that block, and links and unique hashes are kept |
| Pushing.PushCount | canister/src/blockforest.rs:68-93 | the number of blocks with any given hash changes only for the pushed hash, by one |
| Pushing.AttachRoots | canister/src/blockforest.rs:72-92 | for any block, no tree changes its root; a new tree appears, at the end, exactly when no tree has the block or its predecessor |
| Pushing.RestMembers | canister/src/blockforest.rs:148-155 | at most one waiting tree is taken; the others stay |
| Pushing.PushTouches | canister/src/blockforest.rs:68-93 | the push of any block takes away the first tree that waits for it and changes the first tree that has it or its predecessor, or adds a tree at the end; all other trees stay, in order |
| Pushing.PushWaiting | canister/src/blockforest.rs:68-93 | the push of any block, new or not, takes in the first tree that waits for it, and leaves every tree that waits for another present block waiting |
| Pushing.PushClosedIff | canister/src/blockforest.rs:68-93 | after the push of any block no tree waits for a present block, if and only if before at most one tree waited for the pushed block and none for another present block |
| Pushing.PushKeepsClosed | canister/src/blockforest.rs:68-93 | for a new block: if and only if the forest was closed and at most one tree waited for the block |
| Pushing.PushAgain | canister/src/blockforest.rs:68-93 | pushing a block again changes nothing if and only if no tree waits for it and it is not the root of a tree behind its predecessor's |
| Pushing.PushAgainConserves | canister/src/blockforest.rs:72-81 | when it is not such a root, no block is lost or added: the first waiting tree moves below it |
| Pushing.PushOvertaken | canister/src/blockforest.rs:72-81 | when it is, and no tree waits for it, the forest has it twice |
| PushOrder.PushAllKeeps | canister/src/blockforest.rs:68-93 | pushing different blocks in any order builds a linked forest of exactly those blocks |
| PushOrder.ClosedIffReady | canister/src/blockforest.rs:148-155 | an order strands no tree if and only if no block comes after two of its successors |
| PushOrder.AttachedPathsAreMaximal | canister/src/blockforest.rs:100-108 | the attached root-to-leaf paths of a well-formed forest are exactly the maximal linked paths from the anchor |
| PushOrder.SameBlocksSameChain | canister/src/blockforest.rs:100-146 | well-formed forests of the same blocks have the same current chain |
| PushOrder.OrderDoesNotMatter | canister/src/blockforest.rs:68-146 | any two orders of the same blocks that strand no tree give the same current chain |
| OrderMatters.OrderMayMatter | canister/src/blockforest.rs:148-155 | a block pushed after two of its successors gives another current chain than the parent-first order |
| OrderMatters.ParentAgain | canister/src/blockforest.rs:72-81 | pushing that block again gives the forest of the parent-first order |
| OrderMatters.ParentPopped | canister/src/blockforest.rs:24-65 | popping it attaches the second successor, and the chain loses more than the popped block |
| OrderMatters.ShorterForkIsIgnored | canister/src/blockforest.rs:95-99 | a tip may share its height with a block of a shorter fork, against the comment |
| Tips.UncontestedIff | canister/src/blockforest.rs:95-99 | a chain has a tip without another block at its height if and only if it is a prefix of the computed chain and, at every level, the trees off the chain end before its tip |
| Tips.DocumentedIsPrefix | canister/src/blockforest.rs:95-146 | the longest chain with such a tip is always a prefix of the computed chain, and equal to it if and only if the trees off the computed chain end before its tip |
| Tips.TipUncontestedIff | canister/src/blockforest.rs:95-146 | the tip of the computed chain has no other block at its height under exactly that condition |
| Tips.SomeDocumentedChain | canister/src/blockforest.rs:97-99 | there is a longest chain with such a tip, possibly empty |
| UtxoSets.UtxoSet.constructor | canister/src/utxoset.rs:27-34 | an empty set whose index agrees |
| UtxoSets.UtxoSet.InsertOutpoint | canister/src/utxoset.rs:111-136 | accepts exactly fresh outpoints and those of the two exempt transactions; the map gains the output and the index goes on agreeing |
| UtxoSets.UtxoSet.RemoveOutpoint | canister/src/utxoset.rs:65-90 | one output leaves the map and the index; the index always has it |
| UtxoSets.UtxoSet.RemoveSpentTxs | canister/src/utxoset.rs:58-98 | accepts exactly when, under strictness, all inputs are present and different; then all spent outpoints are gone |
| UtxoSets.UtxoSet.InsertUnspentTxs | canister/src/utxoset.rs:101-109 | accepts exactly when no output clashes, but for the exempt transactions; then all outputs are present |
| UtxoSets.UtxoSet.InsertTx | canister/src/utxoset.rs:48-51 | spending, then creating: `ok` if and only if the transaction is acceptable, and the map is then `ApplyTx` of the old one |
| TxSteps.InsertIsStepByStep | canister/src/utxoset.rs:48-136 | accepting a transaction and its effect are those of removing input after input and adding output after output, with a panic where a step panics |
| TxSteps.SpentLeaves | canister/src/utxoset.rs:58-98 | an outpoint that an input of an ordinary transaction names is gone, unless the transaction creates it |
| TxSteps.OthersStay | canister/src/utxoset.rs:48-136 | an outpoint that no input names and the transaction does not create keeps its entry |
| TxSteps.OutputsAppear | canister/src/utxoset.rs:101-109 | the i-th output is at index i, at the given height |
| TxSteps.FreshLeavesNoMark | canister/src/utxoset.rs:111-136 | a transaction that creates no outpoint of the set again repeats no index entry |
| UtxoSets.UtxoSet.GetUtxos | canister/src/utxoset.rs:37-46 | for an address without repeated entries, every lookup succeeds and the result is the filter of the whole map by address; otherwise it succeeds exactly when all listed outpoints are present |
| UtxoSets.ListedIsSlice | canister/src/utxoset.rs:37-46 | an index list without repeated entries, when the index agrees, is exactly the filter of the map by address, each outpoint once |
| UtxoSets.IndexedAgrees | canister/src/utxoset.rs:126-135 | pushing an outpoint onto its address's list keeps the agreement |
| UtxoSets.UnindexedAgrees | canister/src/utxoset.rs:70-88 | removing the first occurrence, and the list when it becomes empty, keeps the agreement |
| Replay.PartialReplayRefinesFull | canister/src/utxoset.rs:37-136 | replaying over an address's slice without strictness gives the address what the strict full replay gives it, and panics or clashes at most where that does |
| Replay.CoversChain | canister/src/store.rs:79-97 | a part that has everything of an address stays such a part under any replay |
| Replay.SameOutputsChain | canister/src/store.rs:79-97 | heights never influence which outputs remain |
| Replay.SameTroubleChain | canister/src/store.rs:79-97 | nor whether a replay panics or creates an unspent outpoint again |
| Replay.HeightsChain | canister/src/store.rs:79-97 | a replay from a height stores only heights of its range |
| Replay.ChainSnoc | canister/src/store.rs:79-97 | replaying one block more is replaying its transactions at the next height |
| Replay.TxsSnoc | canister/src/store.rs:94-96 | replaying one transaction more is applying it last |
| Replay.ChainPrefix | canister/src/store.rs:79-97 | an accepted replay is accepted up to every point |
| Store.InsertTxs | canister/src/store.rs:125-127 | applies transactions in order; `ok` if and only if each is acceptable in turn |
| Store.State.Init | canister/src/store.rs:41-46 | an empty valid state above the anchor |
| Store.State.New | canister/src/store.rs:40-54 | the state of the genesis block: height 1, its outputs at height 1, no unstable block |
| Store.State.InsertBlock | canister/src/store.rs:110-131 | push, then at most one pop, whose transactions are applied at the old height; the predecessor assertion never fires and the state stays valid |
| Store.State.MainChainHeight | canister/src/store.rs:137-142 | the stable height plus the length of the current chain |
| Store.State.GetUtxos | canister/src/store.rs:71-107 | for an address of which no outpoint is repeated, in the set or in the replay, the outputs that the replay over its slice leaves to it, with enough confirmations; a panic whenever that replay panics |
| Store.State.GetBalance | canister/src/store.rs:57-67 | the total value of that answer, if and only if it fits in 64 bits |
| Store.QueryAddress | canister/src/store.rs:76-106 | the two slices around the replay and the final filter: the answer whenever no outpoint of the address is repeated, and a panic whenever the replay panics |
| Store.ReplayConfirmed | canister/src/store.rs:79-97 | the loop with its early break replays exactly the sufficiently confirmed prefix of the chain |
| Store.Select | canister/src/store.rs:99-106 | keeps exactly the outputs with enough confirmations; the subtraction does not underflow |
| Store.SumValues | canister/src/store.rs:61-66 | the sum does not depend on the order of the answers, and the running sum overflows exactly when the whole does |
| Store.SettleKeepsHeights | canister/src/store.rs:125-130 | stored heights stay between 1 and the stable height |
| Queries.AnswerIsFull | canister/src/store.rs:71-107 | without any hypothesis, the replay over the slice gives the same answer as the replay of the confirmed blocks over the whole set, filtered by address and height |
| Queries.QueryRefinesFullReplay | canister/src/store.rs:71-107 | if the strict replay of the confirmed blocks over the whole stable set does not panic, and repeats no outpoint of the address, neither does the query |
| Queries.AnswerMembers | canister/src/store.rs:71-107 | an outpoint is in the answer if and only if it is unspent after the stable set and the blocks before the first with too few confirmations, pays the address, and has enough confirmations itself |
| Queries.ReplayedIffConfirmed | canister/src/store.rs:85-92 | a block of the chain is replayed if and only if it has enough confirmations |
| Queries.AnswersInRange | canister/src/main.rs:52-66 | all heights of an answer lie between 1 and the main chain height, so no confirmation count underflows; zero and one confirmation give the same answer |
| Queries.SettlingKeepsView | canister/src/store.rs:115-130 | settling keeps the main chain height; up to as many confirmations as the chain is long, it changes the view of the chain only by lowering the settled block's outputs by one |
| Queries.SettlingKeepsBalances | canister/src/store.rs:57-131 | up to as many confirmations as the chain is long, the canister answers every address with the same outputs and the same balance before and after settling |
| Queries.BeyondTheChain | canister/src/store.rs:57-131 | with one confirmation more, the answers are the stable outputs of the address without and with the settled block |
| Queries.SettlingStaysUntroubled | canister/src/store.rs:76-131 | if the strict replay of the whole chain neither panics nor repeats an outpoint of the address, settling does neither, and the replay that remains does neither |
| Queries.UntroubledQueries | canister/src/store.rs:76-107 | then every query of the address is clean, whatever its confirmations |
| Queries.StateAnswers | canister/src/store.rs:57-107 | so that, with no repeated entry of the address, the methods of the state give the answers that the lemmas speak of |
| Runs.RunRefinesHistory | canister/src/store.rs:40-131 | after any run the settled blocks are linked from genesis to the anchor, the height is their number plus one, and the stable set is their strict replay, the k-th at height k |
| Runs.InsertRefines | canister/src/store.rs:110-131 | one insertion extends that history by the settled block, if any |
| Runs.PushKeepsSound | canister/src/store.rs:111-112 | pushing an admissible block keeps the forest well formed, ranked and without the anchor |
| Runs.SettleKeepsSound | canister/src/store.rs:114-130 | so does settling |
| Runs.PopBlocks | canister/src/blockforest.rs:24-65 | a pop creates no block |
| Runs.GoodRunIsSound | canister/src/store.rs:40-131 | every state of a run of admissible blocks has a well-formed, ranked forest without the anchor |
| Runs.InsertShowsOnlyThePush | canister/src/store.rs:57-142 | in such a run with a positive delta and an untroubled replay after the push, settling does not panic, and shows in no main chain height, answer or balance at up to as many confirmations as the chain is long; the replay stays untroubled |
| Values.SumIsTotal | canister/src/store.rs:61-66 | summing an answer is summing the values of the set it comes from |
| Supply.ValueConserved | canister/src/utxoset.rs:48-109 | the total changes by what the transaction pays out less what it spends and overwrites |
| Supply.AcceptedBalance | canister/src/utxoset.rs:48-109 | a strictly accepted transaction that overwrites nothing takes the values of its inputs out of the total, unless it is a coinbase transaction, and puts the values of its outputs in |
| Supply.CoveredByInputs | canister/src/utxoset.rs:48-109 | an ordinary transaction with its inputs present is covered when its outputs add up to at most its inputs |
| Supply.ChainBound | canister/src/utxoset.rs:48-109 | covered transactions raise the total by at most what coinbases mint |
| Supply.AnswerBound | canister/src/store.rs:57-67 | no answer of the canister holds more than the stable total plus what the unstable chain mints |
| Supply.BalanceFitsU64 | canister/src/store.rs:58-66 | in any run whose coinbases mint at most 2.1e15 satoshis, every answer at every confirmation count has a balance that fits in 64 bits |
| Proto.BlockRoundTrip | canister/src/block.rs:8-96 | a block survives conversion to records and back |
| Proto.TreesRoundTrip | canister/src/blockforest.rs:304-320 | a forest survives, with its shape and order |
| Proto.BlockStored | canister/src/block.rs:8-48 | the record of a block says the same as the block, field by field |
| Proto.UtxoStored | canister/src/utxoset.rs:143-153 | so does the record of an output |
| Proto.UtxosRoundTrip | canister/src/utxoset.rs:138-197 | the outputs come back without a panic, in whatever order they were stored |
| Proto.SameList | canister/src/utxoset.rs:18-22 | two indexes that agree with the same set list the same outpoints, up to order, for an address without repeated entries |
| Proto.UtxoSetToProto | canister/src/utxoset.rs:138-163 | every output is stored once |
| Proto.UtxoSetFromProto | canister/src/utxoset.rs:165-197 | rebuilds the map and an agreeing index; `ok` if and only if the records are readable and store nothing twice, but for the exempt transactions |
| Proto.StateToProto | canister/src/store.rs:148-155 | the records of height, anchor, outputs and forest |
| Proto.StateFromProto | canister/src/store.rs:157-166 | rebuilds all parts; `None` if and only if a record is missing or unreadable |
| Proto.Reload | canister/src/store.rs:148-166 | storing and rebuilding never panics, gives the same state value, and the same list up to order for every address without repeated entries |
| Pools.DrawDownConserves | examples/motoko/src/BTConICP.mo:162-197 | the pieces come from the head of the pool and cover exactly the amount, or everything; the pool loses exactly what they take |
| Pools.DrawDownExactly | examples/motoko/src/BTConICP.mo:162-197 | the pieces are the first entries, whole but for the last, which is what is still missing; what is left is the rest of the pool, with the remainder of the last entry sorted back in |
| Pools.DrawDownKeepsOrder | examples/motoko/src/BTConICP.mo:162-197 | the pool stays in descending order with positive entries |
| Pools.DrawsNoMoreThanNeeded | examples/motoko/src/BTConICP.mo:170-176 | all pieces but the last are whole entries and do not cover the amount |
| Pools.GreedyDrawIsOptimal | examples/motoko/src/BTConICP.mo:162-197 | no selection of entries that covers the amount is smaller than the greedy one |
| Pools.SortSorts | examples/motoko/src/BTConICP.mo:141-147 | the sort puts large amounts first |
| Pools.SortKeeps | examples/motoko/src/BTConICP.mo:141-147 | the sort keeps the entries and their sum |
| Pools.SortIsStable | examples/motoko/src/BTConICP.mo:141-147 | the sort keeps the order of equal amounts |
| Pools.LastPieceDecides | examples/motoko/src/BTConICP.mo:170-188 | all pieces cover the fee if and only if the last one does |
| Pools.SentInAll | examples/motoko/src/BTConICP.mo:174-188 | the requests total the pieces less one fee each |
| WrappedBitcoin.WrappedBitcoinActor.constructor | examples/motoko/src/BTConICP.mo:23-26 | the empty, sound ledger |
| WrappedBitcoin.WrappedBitcoinActor.Mint | examples/motoko/src/BTConICP.mo:44-49 | adds to one balance and the supply; traps exactly on 64-bit overflow |
| WrappedBitcoin.WrappedBitcoinActor.CreateOrViewInvoice | examples/motoko/src/BTConICP.mo:77-94 | is the opening step of the ledger, and returns the caller's account |
| WrappedBitcoin.WrappedBitcoinActor.SendTo | examples/motoko/src/BTConICP.mo:51-58 | is the transfer step of the ledger; traps exactly on a short balance or overflow |
| WrappedBitcoin.WrappedBitcoinActor.SortUsedAccounts | examples/motoko/src/BTConICP.mo:141-147 | the same entries, larger amounts first, equal amounts in the order they had |
| WrappedBitcoin.WrappedBitcoinActor.InvoiceToUsedAccounts | examples/motoko/src/BTConICP.mo:136-139 | the old entries and the invoice's, larger amounts first, with the invoice's before others of its amount |
| WrappedBitcoin.WrappedBitcoinActor.CloseInvoiceOf | examples/motoko/src/BTConICP.mo:106-134 | is the closing step of the ledger |
| WrappedBitcoin.WrappedBitcoinActor.DrawOnPool | examples/motoko/src/BTConICP.mo:162-197 | the loop computes exactly the pieces, requests, remaining pool and supply of the greedy draw, and traps exactly when a piece is below the fee or the supply short |
| WrappedBitcoin.WrappedBitcoinActor.UnwrapBtc | examples/motoko/src/BTConICP.mo:153-200 | is the unwrapping step of the ledger |
| WrappedBitcoin.CloseKeepsSound | examples/motoko/src/BTConICP.mo:106-139 | closing an invoice keeps balances, supply and pool equal in sum, and the pool sorted |
| WrappedBitcoin.CloseMints | examples/motoko/src/BTConICP.mo:106-139 | the caller gains exactly what the invoice holds, backed by its account; the invoice is gone; other balances and invoices stay |
| WrappedBitcoin.CloseTraps | examples/motoko/src/BTConICP.mo:44-49 | closing traps if and only if the caller's balance or the supply would exceed 64 bits |
| WrappedBitcoin.CloseAgainMintsNothing | examples/motoko/src/BTConICP.mo:106-134 | closing again changes nothing |
| WrappedBitcoin.OpenKeepsInvoice | examples/motoko/src/BTConICP.mo:77-94 | an invoice is opened for a caller without one and stays the same for one with one; nothing else changes |
| WrappedBitcoin.SendConserves | examples/motoko/src/BTConICP.mo:51-58 | a transfer keeps the sum of balances if and only if the principals differ or nothing is sent; to oneself it adds its value |
| WrappedBitcoin.SendMoves | examples/motoko/src/BTConICP.mo:51-58 | between different principals the one has exactly the value less and the other exactly the value more; other balances, invoices, pool and supply stay |
| WrappedBitcoin.SendTraps | examples/motoko/src/BTConICP.mo:52-55 | a transfer traps if and only if the balance is short or the recipient's would exceed 64 bits |
| WrappedBitcoin.UnwrapKeepsSound | examples/motoko/src/BTConICP.mo:153-200 | unwrapping keeps the ledger sound, burns exactly the amount, asks for it less a fee per entry, and traps if and only if the last piece is below the fee |
| WrappedBitcoin.ShortUnwrapDoesNothing | examples/motoko/src/BTConICP.mo:158-161 | with a balance below the amount the ledger stays as it is and nothing is requested |
| WrappedBitcoin.UnwrapTouchesOnly | examples/motoko/src/BTConICP.mo:153-200 | otherwise exactly the amount leaves the caller's balance and the supply; other balances and the invoices stay |
| WrappedBitcoin.UnwrapAsksHead | examples/motoko/src/BTConICP.mo:170-189 | the i-th request goes to the i-th account of the pool, for its whole entry less the fee, but for the last, for what is still missing |
| WrappedBitcoin.UnwrapLeaves | examples/motoko/src/BTConICP.mo:170-191 | the pool keeps the entries not drawn on and the remainder of the last one drawn on, in order |
| WrappedBitcoin.UnwrapIsOptimal | examples/motoko/src/BTConICP.mo:153-200 | an unwrap draws on as few entries as any covering selection |
| WrappedBitcoin.RunIsSound | examples/motoko/src/BTConICP.mo:17-200 | in every run without transfers to oneself, balances, supply and backing accounts agree in sum and the pool is sorted |
| WrappedBitcoin.RunPaysWhatItBurns | examples/motoko/src/BTConICP.mo:17-200 | over every such run, what the accounts are asked for, with the fees, is exactly what balances lost to unwraps, and the supply is what was deposited less what was paid out |
| Codec.BytesToDecimal | tests/Utils.mo:119-125 | the base-256 value of the bytes; an empty array traps |
| Codec.DecimalToBase58 | tests/Utils.mo:126-137 | digits below 58 without a leading zero whose base-58 value is the input |
| Codec.Base58Of | tests/Utils.mo:126-137 | every number has a base-58 form without leading zeros, which has its value |
| Codec.EncodeBase58Injective | tests/Utils.mo:44-55 | different digits give different text |
| Codec.HexRoundTrip | tests/Utils.mo:59-112 | the bytes read from the hexadecimal text of bytes, in upper or in lower case, are those bytes |
| Codec.AcceptedSymbols | tests/Utils.mo:75-97 | the characters accepted in a hexadecimal text are exactly those of the two tables |
| Codec.HexStringToBytes | tests/Utils.mo:87-112 | one byte for each pair of symbols, dropping a last odd one; traps exactly on a symbol that is not hexadecimal |
| Codec.PrivateKeyToWif | tests/BitcoinEncryption.mo:6-24 | the text is the one canonical base-58 form of version byte, key and checksum; no leading '1' is ever added |
| Codec.WifInjective | tests/BitcoinEncryption.mo:6-24 | two keys with the same text are the same key |
| Codec.WifReadsBack | tests/BitcoinEncryption.mo:6-24 | a reader that checks the version byte and the first four bytes of the double SHA-256 accepts the text and gives back the key |
| Digits.CanonicalUnique | tests/Utils.mo:119-137 | a number has one form without leading zeros |
| CoinSelection.SelectedIsShortest | examples/common/src/lib.rs:32-43 | the selection is the shortest covering prefix, or all coins when none covers |
| CoinSelection.BuildTransaction | examples/common/src/lib.rs:22-81 | the loop, its overflows and the branches after it compute `Transfer`, for any coins |
| CoinSelection.TransferConserves | examples/common/src/lib.rs:32-76 | when the coins cover amount and fees without overflow, the inputs are the shortest covering prefix, inputs equal amount, change and paid fee, and the paid fee is at least the one asked for and less than the dust threshold above it |
| CoinSelection.WhenTransferSucceeds | examples/common/src/lib.rs:36-69 | success, insufficient balance and panic, each if and only if the coins hold enough, less than the amount, or something between or too much to add up |
| CoinSelection.Wallet.Send | examples/rust/src/main.rs:127-162 | sends from coins outside the cache, and the cache gains exactly the inputs |
| CoinSelection.UnspentInOrder | examples/rust/src/main.rs:142-146 | the filter keeps exactly the coins outside the cache, in order |
| CoinSelection.UnspentCount | examples/rust/src/main.rs:142-146 | and each as often as it was offered |
| CoinSelection.SendSucceeds | examples/rust/src/main.rs:127-151 | a call sends if and only if the amount is above 10000 and some number of the first coins, without those in the cache, covers amount and fees and fits in 64 bits |
| CoinSelection.SendSpendsFirst | examples/rust/src/main.rs:142-162 | it sends the amount from the fewest such coins |
| CoinSelection.CacheHoldsInputs | examples/rust/src/main.rs:153-162 | the cache after one more transaction is the inputs of all transactions |
| CoinSelection.NeverSpendsTwice | examples/rust/src/main.rs:142-162 | no outpoint is an input of two transactions of a run |

## Left out

- The adapter shim, `sync_demo`, network transport, canister endpoints, Candid declarations,
  the frontend and the build: input, output and plumbing.
- Proof of work, ECDSA signing, key and script parsing, SHA-256 itself: opaque library calls.
- Protobuf bytes: only the conversions between values and records are modelled.
- Aliasing inside a tree: a Rust node owns its children, so a tree is a value here, and the
  mutable reference that `find_mut` returns is modelled by rebuilding the path to the node
  (`TreeWalks.PushChild`).
- `get_blocks` and `get_unstable_blocks`: flattened lists of paths.
- Library sorts appear as the stable insertion sorts they are equal to in result.
- Width of `u32` heights and output indexes, and of the `u64` forest delta: unbounded here.
- TreeWalks.Filter: the iterator chain of the source is a loop here.
- Store.State.GetUtxos: says nothing for an address of which one of the two exempt transactions
  of BIP 30 has created an unspent outpoint again, in the stable set or in the replayed blocks,
  unless the replay panics, because the index may then list an outpoint twice.
- Store.State.GetBalance: the same; a running sum beyond 64 bits ends in `ok == false`, as in
  checked arithmetic.
- UtxoSets.UtxoSet.RemoveOutpoint: the search through an index list is proved to succeed, so
  the source's handling of a failed search is dead code and has no counterpart.
- Store.State.InsertBlock: promises nothing about the fields after a panic, which the platform
  rolls back.
- WrappedBitcoin.WrappedBitcoinActor.CloseInvoiceOf: the messages it sends to its own actor
  take effect in the same step, and the account's balance is a parameter.
- WrappedBitcoin.WrappedBitcoinActor.UnwrapBtc: interleavings at `await`, and outcomes of the
  account's `send`, are not modelled; the whole message is one step.
- Direct calls from outside to `mint`, `invoice_to_used_accounts` and `sort_used_accounts`, and
  `send_from_invoice`, which does not touch the ledger: not part of a run.
- WrappedBitcoin.RunIsSound: transfers to oneself are excluded by hypothesis, since
  `WrappedBitcoin.SendConserves` shows that they break conservation.
- CoinSelection.BuildTransaction: an underflow or overflow ends in `Panic`, as in checked
  arithmetic, whereas a build without overflow checks wraps around.
- CoinSelection.Wallet.Send: an invalid destination, signing and the call that sends the
  transaction are not modelled.
- `nat8_array_to_text` and the debug output of `encode` in `tests/Utils.mo`.
