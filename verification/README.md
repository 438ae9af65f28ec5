# Alias node: models and proofs

This project models the stateful core of the Alias full node (a descendant of Bitcoin,
PPCoin and BlackCoin) in Dafny and proves what its documentation and tests promise, or,
where the code does not keep a promise, the exact condition under which it does.
`dafny verify dfyconfig.toml` checks everything.

## What is modelled

* **Address manager** (`AddrTables`, `AddrMan`, `AddrCheck`, `AddrDisk`, `AddrRead`, `AddrRun`,
  `AddrLaws`).  The class `CAddrMan` has the fields of the original: the id and address maps, the random permutation, the "new"
  buckets with reference counts, the tried buckets and the counters.  Each method states its whole effect
  and keeps all six structures consistent; runs of any operations follow.  The self-check is
  modelled on arbitrary states.  Writing to disk and reading back is proved to be a renaming of
  ids, and reading is modelled on arbitrary images, with the exact condition for a consistent
  result.
* **Transaction index and supply** (`TxIndexing`, `UndoBlock`, `Supply`, `ConnectBlock`, `BlockLaws`).
  Connecting and disconnecting inputs, transactions and blocks over an index with queued
  changes.  `ConnectBlock` succeeds if and only if the block is `Acceptable`, which is a
  definition on the index itself and not on the loop; disconnecting is its inverse exactly
  for `Undoable` blocks; supply is conserved.
* **Chain state machine** (`ChainTree`, `ChainPaths`, `ChainSteps`, `ChainAgreement`, `ClearedIndex`,
  `ChainParting`, `ActiveChain`, `ChainState`, `ChainExamples`, `ChainLaws`).  The class `CBlockChain`
  has the database with begin, commit and abort, the forward links, the supplies, the best block and the chain indexed by
  height.  The environment decides which reads and commits fail.  Each method does, in every state, what a
  function in `ChainSteps` says.  `ChainAgreement` proves that, starting in step, the database is what
  replaying the ancestors of its tip gives, and `ChainParting` what happens after it has parted from the
  best block, and exactly when a reorganisation brings the two together again.
* **Merkle code** (`MerkleTree`, `PartialMerkle`, `PartialMerkleTree`).  The flat array, branches, and
  the partial tree with its byte packing: round trip, soundness against arbitrary data, sizes.
* **Block template** (`MinerPool`, `Miner`, `MinerLaws`, `Template`).  The scheduler with its heap, waiting
  transactions and test pool, round by round; that it leaves nothing out without a reason; whether a block made of its result is accepted by `ConnectBlock`, for proof of
  work and, with a coinstake, for proof of stake.
* **Orphan pool** (`OrphanBlocks`, `OrphanPool`), **stake modifier** (`Kernel`), **ring-member
  picker** (`MixinPool`, `Mixins`, `MixinLaws`), **block locator** (`BlockLocator`), **compact targets and
  retargeting** (`CompactTargets`, `Retarget`), **mnemonic** (`BitTables`, `BitPacking`,
  `Mnemonic`) and **Base58** (`Base58`), each with its loops as methods.
* `Basics` and `Arithmetic` hold what several of these use.

## How to read the model

* A 256-bit hash is a number and hashing, signature checks and the checks of anonymous
  inputs are uninterpreted functions.  Injectivity of the pair hash is assumed only by the lemmas that name
  `Injective`.
* Random draws, the clock, policy and measured sizes are parameters, and every contract holds
  for all of them.  Only which orphan the walk to an evicted one starts from is nondeterministic.
  `std::shuffle` is modelled as exchanges with drawn positions, by which every order can come
  about (`Mixins.AnyOrder`).
* Contracts name predicates and functions.  What these mean is written out again on fields,
  indexes and numbers, by lemmas: in `AddrLaws`, `BlockLaws`, `ChainLaws`, `MinerLaws` and
  `MixinLaws`, and at the end of the smaller modules.
* Reading a block from disk and committing can fail; `Io` says for which block, and every
  result of the chain state holds for every `Io`.
* Integers are unbounded except where the original's width matters: an address's last-seen
  time wraps to 32 bits, bytes and mnemonic words are bit vectors.
* Ordered sets and maps are visited in ascending order (`Ascending`); the multimap of orphans
  is a map to sequences; the heap is modelled by what `pop_heap` promises (`Miner.PopMax`).
* A block's place on disk never changes what it holds, so a disk position carries its block.
* The ghost `rank` of the orphan pool witnesses that hash links form no cycle.

## Where the code and its promises differ

* `SelectTried` (src/addrman.cpp:134-141) moves the chosen entry to slot i but reports the
  drawn position.  `ReportsLeastExactly` states, on bucket and draws, when the two agree, and
  `ReportsAnother` gives a bucket and draws for which they do not.
* The comment at src/addrman.h:697-698 says that the disk format survives a change of the
  bucket parameters.  After a change of the number of "new" buckets the entries go to their own
  buckets without a look at the size of these: `OtherCountExactly` is the exact condition for a
  consistent result and `CrowdedExample` an image that misses it.  `ReadExactly` is the condition
  for any image.
* The comment at src/main.h:2133 bounds the flag bits by 2N-1.  `DocumentedBitBound` gives
  the exact condition, `DocumentedBitBoundFails` an input, and `SizeGuarantees` the bounds that hold always.
* `DisconnectInputs` (src/main.cpp:2114) skips every input of anonymous shape, `ConnectInputs`
  (src/main.cpp:2485) only those in anonymous transactions.  `Undoable` is the exact condition for the
  two to cancel (`StraddlerExample` is an accepted block that misses it).  `ChainAgreement` assumes it of every
  filed block.  An input of anonymous shape
  starts with OP_RETURN (src/core.h:137), on which scripts fail (src/script.cpp:589), so such a
  block passes only where signatures are not checked, below the last checkpoint
  (src/main.cpp:2544): `CheckedBlocksAreUndoable` proves that elsewhere an acceptable block is
  undoable exactly when its transactions are new to the index.
* When a postponed block cannot be attached, `SetBestChain` (src/main.cpp:3076-3091) keeps what
  was connected but names the new block as best.  `AdoptedInStep` states exactly when that happens, and
  `LosesSync` builds such a state from the genesis block with two blocks and one failed commit.  The next
  block on top of the best one is then attached to an index that lacks its predecessors
  (`AddedOnTopParted`, `LosesTrack`), and `RejoinsExactly` is the condition under which a later
  reorganisation repairs this (`FindsBack`).
* `SignBlock` (src/main.cpp:4090-4113) makes the coinstake with the fees of the whole template and then drops
  the transactions from after its time.  `ClaimsDroppedFees`: a coinstake that claims all of these
  fees is refused as soon as a dropped transaction pays.
* A longer spacing can require a harder target in two ways.  A negative spacing counts as on
  target (src/main.cpp:1957-1958), so that going from a negative spacing to one short of the
  target makes the target harder (`NegativeIsTheOtherException`, `NegativeExample`).  And a short
  spacing turns a previous target of 1 into zero, which is replaced by the limit
  (src/main.cpp:1972-1973, `OneIsTheException`).  `HarderExactly` and `HarderPairs` state for
  which pairs of spacings it happens, and `LongerIsEasierExactly` for which previous targets it
  never does.
* The mnemonic decoder derives the checksum length as 1/32 of all bits, which is right for
  up to 31 groups of four bytes and wrong from 32 on; and the encoder accepts entropies that are
  not whole groups, which come back only for some hashes (`EncodeAndDecode`, `ComesBack`).

## Model

| member | source | states |
|---|---|---|
| AddrRun.Run | src/addrman.cpp:92-533 | every run of Add_, Good_, Attempt_, Connected_, GetAddr_, Clear and restarts from disk, from an empty manager, ends with all tables consistent, and no assert in the operations fires; when all times given to Good_ and Attempt_ are sane, the self-check passes in the end |
| AddrTables.TablesAreBounded | src/addrman.h:122-141 | a consistent manager holds at most 256*64 untried and 64*64 tried entries, and its permutation is as long as both counters together |
| AddrManager.CAddrMan.constructor | src/addrman.h:827-835 | an empty manager is consistent |
| AddrManager.CAddrMan.Clear | src/addrman.h:812-825 | clearing leaves a consistent manager that knows nothing |
| AddrManager.CAddrMan.Find | src/addrman.cpp:79-90 | the id of the entry at a network address, and -1 exactly when no entry has that address |
| AddrManager.CAddrMan.FindService | src/addrman.cpp:260-275 | the id of the entry with exactly this address and port, and -1 exactly when there is none |
| AddrManager.CAddrMan.Create | src/addrman.cpp:92-102 | the new entry is last in the permutation and indexed by address and by a fresh id; with the caller's time, counter and first reference it is consistent but for the bucket it is about to enter |
| AddrManager.CAddrMan.SwapRandom | src/addrman.cpp:104-122 | two positions of the permutation change places, positions recorded in the entries stay its inverse, nothing else changes |
| AddrManager.CAddrMan.Delete | src/addrman.cpp:162-166 | the entry leaves the permutation, both maps and the counter; the permutation and the maps stay each other's inverse |
| AddrManager.CAddrMan.Release | src/addrman.cpp:160-169 | one bucket loses the entry, whose count goes down by one; without references it is gone from every index; all tables stay consistent |
| AddrManager.FirstTerrible | src/addrman.cpp:153-158 | the first deletable entry in id order, or none when no entry is deletable |
| AddrManager.OldestOfFour | src/addrman.cpp:173-186 | the first of the entries seen longest ago at the four drawn positions |
| AddrManager.CAddrMan.ShrinkNew | src/addrman.cpp:148-200 | exactly one entry of the bucket is released: the first deletable one with result 0, otherwise the first of those seen longest ago at the four drawn positions with result 1 |
| AddrManager.SelectTried | src/addrman.cpp:124-146 | the bucket as the draws of the first four rounds shuffle it, and the position drawn in the round of the least recently successful inspected entry; -1 exactly for an empty bucket |
| AddrManager.ReportsLeastExactly | src/addrman.cpp:134-141 | the result is a permutation of the bucket, and the reported position holds the least recently successful inspected entry if and only if the draw for its slot was zero |
| AddrManager.ReportsAnother | src/addrman.cpp:134-141 | a full bucket of 64 and draws for which the reported position does not hold the least recently successful inspected entry |
| AddrManager.LeaveNew | src/addrman.cpp:206-211 | the entry is in no "new" bucket any more, and its count went down by the number of buckets that held it |
| AddrManager.Replace | src/addrman.cpp:229-256 | the entry at the reported position of the shuffled bucket is back in its own "new" bucket, or in the bucket of origin when that is full, and the promoted entry has its place |
| AddrManager.CAddrMan.MakeTried | src/addrman.cpp:202-258 | the entry leaves all "new" buckets and enters its tried bucket, at the end or in place of the one at the reported position of the bucket as the draws shuffle it, which returns to one "new" bucket; all tables stay consistent |
| AddrManager.FindHolder | src/addrman.cpp:287-299 | the first bucket that holds the entry, round robin from the drawn start, and -1 exactly when none does |
| AddrManager.CAddrMan.Good_ | src/addrman.cpp:260-309 | statistics are updated, and an untried entry is promoted from the first bucket that holds it after the drawn one; the bucket search cannot fail |
| AddrManager.CAddrMan.EnterBucket | src/addrman.cpp:358-366 | the entry is in the bucket; a full bucket first lost the first deletable entry in id order, or else the first of those seen longest ago at the four drawn positions |
| AddrManager.CAddrMan.AddUnknown | src/addrman.cpp:349-366 | an unknown address becomes a new entry with one reference, in the bucket of its source, which if full lost the entry of that choice |
| AddrManager.CAddrMan.AddKnown | src/addrman.cpp:318-348 | a known address is refreshed, and gains one reference exactly when the draw is 0 and it may have one more and is not in the bucket of the source; a full bucket lost the entry of that choice |
| AddrManager.CAddrMan.Add_ | src/addrman.cpp:311-368 | an unroutable address changes nothing; otherwise the address is known afterwards, as AddUnknown or AddKnown leave it, and the result is true exactly when it was not known before |
| AddrManager.CAddrMan.Attempt_ | src/addrman.cpp:370-387 | only the attempt statistics of the named entry change |
| AddrManager.CAddrMan.Connected_ | src/addrman.cpp:515-533 | only the last-seen time of the named entry changes, and only when it is more than 20 minutes old |
| AddrManager.CAddrMan.GetAddr_ | src/addrman.cpp:499-513 | the permutation as the draws shuffle its front; 23 percent of the entries, at most 2500, are handed out from there, no network address twice |
| AddrManager.CAddrMan.Check_ | src/addrman.cpp:439-496 | on a state the operations keep, the self-check passes exactly when every recorded time is sane |
| AddrCheck.Check | src/addrman.cpp:439-496 | on any state at all, the self-check returns 0 if and only if the state meets the closed consistency condition, and otherwise the number of the first test that fails |
| AddrCheck.CheckEntries | src/addrman.cpp:446-469 | the first pass completes exactly when every entry is sound, and has then collected the tried ids and the reference counts of the others; otherwise it returns the complaint about the entry with the lowest id |
| AddrCheck.CheckTried | src/addrman.cpp:473-481 | crossing off fails exactly when the tried buckets hold some id too often; nothing is left exactly when they hold the tried ids once each |
| AddrCheck.CheckNew | src/addrman.cpp:483-492 | counting down fails exactly when some id is in more "new" buckets than it has references; nothing is left exactly when the numbers agree |
| AddrCheck.TablesPass | src/addrman.cpp:439-496 | a consistent manager meets the self-check's condition exactly when its times are sane |
| AddrManager.CAddrMan.Serialize | src/addrman.h:708-746 | what a consistent manager writes is a consistent image that lists its entries and buckets |
| AddrManager.CAddrMan.Unserialize | src/addrman.h:747-807 | reading any image at all: every table as it is rebuilt, and how many tried entries are lost; the result is consistent if and only if the image is readable, and then has the tables of what is kept of it |
| AddrManager.SaveAndLoad | src/addrman.h:677-809 | writing and reading back gives a consistent manager with the same addresses, written fields, table and reference count per entry, and the same bucket memberships, under a one-to-one renaming of ids; nothing is lost but the time of the last try, which is not written |
| AddrDisk.RoundTrip | src/addrman.h:677-809 | the renaming theorem behind it, for every consistent manager and every image and manager so written and read |
| AddrDisk.WriteNew | src/addrman.h:712-724 | the untried entries in id order, each under its own number, although the loop stops early |
| AddrDisk.WriteTried | src/addrman.h:725-735 | the tried entries in id order, although the loop stops early |
| AddrDisk.WriteBuckets | src/addrman.h:736-746 | every bucket as the numbers of its entries |
| AddrDisk.WrittenIsOk | src/addrman.h:677-809 | a written image has distinct addresses, tried buckets that fit, and every untried entry in one to four buckets |
| AddrRead.LoadNew | src/addrman.h:756-768 | every untried entry is under its number; with another number of buckets it is in its own bucket with one reference |
| AddrRead.LoadTried | src/addrman.h:769-789 | the tried entries that find room are under the next numbers and in their buckets; the others are counted as lost |
| AddrRead.LoadBuckets | src/addrman.h:790-806 | for any lists of numbers: bucket membership and references by the first four names of every number, and an entry made up for every number that has none |
| AddrRead.ReadExactly | src/addrman.h:747-807 | any image yields consistent tables if and only if what is kept of it has distinct addresses and at most 64 distinct untried entries per bucket, each in at least one, and every number in it is that of an entry |
| AddrRead.KeptIsAll | src/addrman.h:747-807 | of an image that a consistent manager wrote everything is kept, so that it is readable |
| AddrRead.KeptTriedCount | src/addrman.h:772-789 | of every tried bucket as many entries are kept as fit |
| AddrRead.KeptRefsExactly | src/addrman.h:796-805 | of the references to an entry exactly the first four are kept |
| AddrRead.OtherCountExactly | src/addrman.h:694-698 | an image written with another number of "new" buckets is readable if and only if addresses and numbers are in order and no bucket is the own bucket of more than 64 entries |
| AddrRead.CrowdedExample | src/addrman.h:694-698 | such an image in good order that is not: 65 entries, spread over three buckets, whose own bucket is the same |
| ConnectBlocks.FetchInputs | src/main.cpp:2150-2227 | the entries and transactions of all inputs, read from the queued changes before the database; it fails exactly when an output cannot be found |
| ConnectBlocks.CheckInputs | src/main.cpp:2483-2519 | the inexpensive checks pass exactly when every input passes and the sum of the values is a possible amount |
| ConnectBlocks.SpendInputs | src/main.cpp:2520-2570 | every previous output is marked spent in the queue, exactly when all are unspent and all signatures verify |
| ConnectBlocks.ConnectInputs | src/main.cpp:2475-2619 | the exact condition under which a transaction's inputs connect, and the index that results |
| ConnectBlocks.ConnectTransaction | src/main.cpp:2720-2793 | the exact condition under which one transaction of a block connects, and the running sums |
| ConnectBlocks.ConnectTransactions | src/main.cpp:2712-2793 | all transactions connect exactly when each is acceptable on top of the ones before it and the signature operations stay in bound |
| ConnectBlocks.ConnectBlock | src/main.cpp:2676-2867 | a block connects if and only if it is acceptable to the index; then index and supplies are those of its transactions in order, otherwise nothing changes |
| ConnectBlocks.DisconnectInputs | src/main.cpp:2107-2147 | outputs given back and the transaction forgotten, failing exactly on an index out of range |
| ConnectBlocks.DisconnectBlock | src/main.cpp:2621-2626 | all transactions taken back, last one first |
| TxIndexing.SpendAllMarks | src/main.cpp:2536-2563 | spending succeeds on distinct unspent outputs only and marks exactly these |
| UndoBlock.UndoTx | src/main.cpp:2107-2147 | taking back the transaction connected last restores every entry that no straddling input touches |
| UndoBlock.UndoableRestores | src/main.cpp:2621-2626 | connecting and then disconnecting an undoable block restores every entry of the transaction index |
| UndoBlock.DisconnectRestoresExactlyWhenUndoable | src/main.cpp:2107-2147 | and the index is restored only then: no transaction of the block was indexed before, and no anonymous-shaped input of an ordinary transaction spends an output from before the block |
| ChainExamples.StraddlerExample | src/main.cpp:2107-2147 | an accepted block, on top of an accepted chain, for which it fails where signatures are not checked: an anonymous-shaped input in an ordinary transaction is spent on connecting and skipped on disconnecting |
| ConnectBlocks.CheckedBlocksAreUndoable | src/main.cpp:2544-2570 | where signatures are checked, and fail on inputs of anonymous shape, an acceptable block has no input for which it fails, and can be undone if and only if its transactions are new to the index |
| Supply.TotalOfConnectTx | src/main.cpp:2752-2793 | connecting a transaction moves the unspent transparent value by its transparent outputs less its transparent inputs |
| ConnectBlocks.TotalOfConnectTxs | src/main.cpp:2752-2793 | the same for every prefix of a block, against the running sums |
| ConnectBlocks.BlockConservesSupply | src/main.cpp:2847-2852 | money supply less anonymous supply moves exactly as the unspent transparent value does |
| ConnectBlocks.StakeMintsAtMostSubsidy | src/main.cpp:2805-2817 | a proof-of-stake block raises the money supply by at most the subsidy |
| ChainPaths.ChainConservesSupply | src/main.cpp:2847-2852 | at the end of every accepted chain, money supply less anonymous supply is the sum of all unspent transparent outputs |
| ChainPaths.ChainMintsAtMostSubsidy | src/chainparams.cpp:64-76 | every proof-of-stake block of an accepted chain mints at most the subsidy |
| ChainTree.FindFork | src/main.cpp:2894-2906 | the walk on both branches ends at the last common ancestor and never falls off the tree |
| ChainTree.DisconnectTip | src/main.cpp:2922-2930 | disconnecting an undoable tip yields its predecessor's index |
| ChainPaths.DisconnectPath | src/main.cpp:2922-2938 | on any index, the blocks of a path are taken off one after the other, exactly when each can be read and taken off |
| ChainPaths.TakenOffChain | src/main.cpp:2922-2938 | on the index of a chain of undoable blocks, the way from the best block back to the fork leads to the fork's index; only an unreadable block stops it |
| ClearedIndex.TakingOffClears | src/main.cpp:2922-2938 | whatever the index and the blocks, what taking blocks off leaves is the index without the entries of their transactions and with the outputs they give back unspent |
| ClearedIndex.LeavesExactly | src/main.cpp:2107-2147 | taking blocks off changes nothing if and only if none of their transactions is in the index and nothing they give back is spent there |
| ChainPaths.ConnectNext | src/main.cpp:2991-3008 | one block on top of any index, exactly when it is acceptable there, with the supply recorded on top of its predecessor's |
| ChainPaths.ConnectPath | src/main.cpp:2940-2957 | on any index, the blocks of a path are connected one after the other, exactly when each can be read and is acceptable there; supplies recorded on the way stay |
| ChainPaths.PutOnChain | src/main.cpp:2940-2957 | on the index of the fork this succeeds exactly when every block can be read and the new chain is accepted, and leads to its index and supplies |
| ChainPaths.UnlinkedChain | src/main.cpp:2965-2968 | the forward links of the best chain become those of the fork's chain |
| ChainPaths.LinkedChain | src/main.cpp:2970-2973 | the forward links of the fork's chain become those of the new block's chain |
| ChainState.Switch | src/main.cpp:2890-2957 | both halves of a reorganisation together, on any index |
| ChainState.FindFirst | src/main.cpp:3037-3049 | the first block of the branch that has more trust than the best one, and the postponed rest |
| ChainState.CBlockChain.constructor | src/main.cpp:3023-3029 | a chain of the genesis block alone is consistent and in step; its transactions are not indexed |
| ChainState.CBlockChain.TxnCommit | src/main.cpp:2961-2963 | a commit writes the whole batch or nothing |
| ChainState.CBlockChain.Reorganize | src/main.cpp:2890-2988 | in any state, index, links and supplies after a reorganisation, and when it succeeds; a failed one changes neither database nor links |
| ChainAgreement.ReorganisedInStep | src/main.cpp:2890-2988 | in step, the database, links and supplies move to the new branch together, exactly when every block can be read, the new chain is accepted and the commit reaches the disk |
| ChainState.CBlockChain.SetBestChainInner | src/main.cpp:2991-3014 | in any state, one block attached in one transaction, exactly when it is acceptable to the index as it is and the commit reaches the disk |
| ChainState.CBlockChain.ConnectPostponed | src/main.cpp:3062-3078 | in any state, the postponed blocks attached one by one up to the first that cannot be read or attached |
| ChainAgreement.FollowedStands | src/main.cpp:3062-3078 | the database then stands for a block between the first better one and the new one, which is the new one exactly when all postponed blocks can be read, committed and accepted |
| ChainState.CBlockChain.SetBestChain | src/main.cpp:3016-3097 | the whole state after trying to make a block the best one, in any state; a failed attempt leaves the best block |
| ChainAgreement.AdoptedInStep | src/main.cpp:3016-3097 | in step, the exact conditions under which the new branch is adopted and under which the database stands for the best block afterwards; a new tip has strictly more trust, and a failed attempt changes neither database nor links |
| ChainParting.StandsParted | src/main.cpp:3062-3091 | a database that stands for a block below the best one has parted from it |
| ChainParting.AddedOnTopParted | src/main.cpp:3030-3034 | after that, a better block on top of the best one is attached exactly when it is acceptable to the index as it is; the blocks below it that were never connected stay out of the index, and the database stands for no chain |
| ChainParting.OnlyFromFork | src/main.cpp:2940-2957 | connecting a branch leads to its own index only from the index of the fork |
| ChainParting.RejoinsExactly | src/main.cpp:2890-2988 | a reorganisation that goes through then brings database and best chain together again if and only if its fork is not above the block that the database last stood for, and the blocks never connected leave the fork's index alone |
| ChainParting.AdoptedRejoins | src/main.cpp:3035-3091 | in that case, when it goes through, and how far the branch is then followed |
| ChainParting.AdoptedReplaces | src/main.cpp:3035-3091 | in any state, the index and links that a reorganisation leads to |
| ChainParting.NotAdoptedParted | src/main.cpp:3055-3060 | a failed reorganisation leaves a parted database as it was |
| ChainExamples.LosesSync | src/main.cpp:3062-3091 | a run of two blocks that pass CheckBlock, after which the best block is not the one that the database stands for: a postponed block that cannot be connected stays best |
| ChainExamples.LosesTrack | src/main.cpp:3030-3034 | how it goes on: a third block is attached to an index that lacks the second |
| ChainExamples.FindsBack | src/main.cpp:3035-3091 | and a better branch from the first block brings database and best block together again |
| ChainState.CBlockChain.AddToBlockIndex | src/main.cpp:3502-3575 | in any state, a new block is filed after its predecessor; making it the best one is tried exactly when its index entry is written and its chain has more trust; the best trust never falls |
| ChainAgreement.AddedInStep | src/main.cpp:3502-3575 | in step, and for a block that can be undone where it is, the database stands for the best block or one below it afterwards, and has moved only to a block with more trust |
| ChainState.CBlockChain.IsInMainChain | src/main.h:1297-1300 | a block has a forward link or is the best block exactly when it is on the best chain, in step; and when the database stands for some block, exactly when it is before that block or the best one |
| ChainState.CBlockChain.LocateFork | src/main.h:1871-1885 | a peer's locator looked up with this test, in step: the fork with the peer's chain itself up to 11 blocks back, and less than twice as far back otherwise |
| ChainState.CBlockChain.Run | src/main.cpp:3502-3575 | any offered blocks with any failing reads and commits, from any state: the state is that of the steps in order, the best block is known and in the height index, and best trust never falls |
| ChainAgreement.RunInStep | src/main.cpp:3502-3575 | over every run of blocks that can be undone where they are, from a state in step: all states are in step up to a first one, if any, in which the database stands for a block below the best one |
| ChainState.CBlockChain.DatabaseIsReplay | src/main.cpp:2890-2988 | whenever the database stands for a block, the transaction index equals the one got by connecting the block's ancestors in order, and exactly its proper ancestors have forward links |
| ChainState.CBlockChain.TipConservesSupply | src/main.cpp:2847-2852 | whenever the database stands for a block, the supplies recorded there account for the unspent transparent outputs in the database |
| ActiveChain.CChain.SetTip | src/main.cpp:3849-3859 | after every sequence of tips the vector lists the tip's ancestors by height, although the walk stops at the first entry already there |
| ActiveChain.StopsCorrectly | src/main.cpp:3855-3858 | why the early stop is right: below an entry that is in place, the old past is the new past |
| ActiveChain.CChain.Contains | src/main.h:2071-2073 | one look at the height decides ancestry |
| ActiveChain.CChain.Next | src/main.h:2076-2081 | the successor of a block on the chain, and nothing for the tip or for a block off the chain |
| MerkleTree.FlatHoldsEveryNode | src/main.h:870-887 | the flat array holds at level h, position p exactly the hash computed from the top |
| MerkleTree.FlatEndsWithRoot | src/main.h:870-887 | its last entry is the recursive root |
| MerkleTree.CBlock.BuildMerkleTree | src/main.h:870-887 | the array is the flat tree and the result the recursive root, zero for an empty block |
| MerkleTree.CBlock.GetMerkleBranch | src/main.h:889-903 | the siblings on the way to the root, building the tree if need be |
| MerkleTree.CBlock.CheckMerkleBranch | src/main.h:905-918 | the root that a hash, branch and any index lead to; index -1 yields zero |
| MerkleTree.BranchLeadsToRoot | src/main.h:889-918 | every transaction's own branch leads to the block's root |
| MerkleTree.OnlyTheBranchLeadsToRoot | src/main.h:905-918 | with a collision-free hash, nothing but the transaction and its own branch leads to the root at its index |
| PartialMerkle.BuiltExtractsBack | src/main.cpp:3284-3341 | extracting a built subtree yields its hash and its masked transactions and leaves what follows |
| PartialMerkle.ExtractIsSound | src/main.cpp:3306-3341 | whatever was sent, a subtree that extracts to its true hash yields genuine transactions, in block order |
| PartialMerkleTree.RoundTrip | src/main.cpp:3343-3393 | building, padding to bytes and extracting yields the root and exactly the masked transactions, and passes every check |
| PartialMerkleTree.SizeGuarantees | src/main.h:2122-2134 | hashes are at most the transactions and at most one more than matched times height; bits at most one more than twice that product |
| PartialMerkleTree.Soundness | src/main.cpp:3360-3393 | for arbitrary bits and hashes, an extraction that ends with the block's true root yields real transaction hashes of the block, in block order |
| PartialMerkleTree.BitCount | src/main.h:2133 | the exact number of bits: twice the hashes less one, plus one for every traversed node with a single child |
| PartialMerkleTree.DocumentedBitBound | src/main.h:2133 | the documented bound on the bits holds exactly when no masked transaction is under a last node without a sibling |
| PartialMerkleTree.DocumentedBitBoundFails | src/main.h:2133 | five transactions with the last one masked exceed the documented bound |
| PartialMerkleTree.PackBits | src/main.h:2180-2186 | bits packed eight to a byte, least significant first, the rest clear |
| PartialMerkleTree.UnpackBits | src/main.h:2172-2180 | one bit for every bit of every byte |
| PartialMerkleTree.CPartialMerkleTree.FromBlock | src/main.cpp:3343-3356 | the stored bits and hashes are those of the traversal from the top |
| PartialMerkleTree.CPartialMerkleTree.TraverseAndBuild | src/main.cpp:3284-3304 | appends exactly the subtree's bits and hashes |
| PartialMerkleTree.CPartialMerkleTree.TraverseAndExtract | src/main.cpp:3306-3341 | consumes a subtree's bits and hashes; cursors never pass the end |
| PartialMerkleTree.CPartialMerkleTree.ExtractMatches | src/main.cpp:3360-3393 | the root and matches, or zero on any of the failures |
| PartialMerkleTree.SendAndExtract | src/main.h:2168-2187 | from node to node by bytes: the root and exactly the masked transactions arrive |
| Miner.PopMax | src/miner.cpp:283-290 | the front of the heap is a greatest element of the queue |
| Miner.Examine | src/miner.cpp:188-232 | the parents a transaction waits for, its total input value, and its entry under every parent |
| Miner.RegisterOne | src/miner.cpp:178-269 | every pooled transaction that can be scheduled is queued or waits for exactly its pooled parents, with its own priority and fee rate |
| Miner.SetUp | src/miner.cpp:171-279 | the schedule's invariant holds once the whole pool has been read |
| Miner.ConnectToPool | src/miner.cpp:323-371 | the test pool is replaced exactly when the transaction is valid on top of it, pays its fee and fits; otherwise it is untouched |
| Miner.Consider | src/miner.cpp:292-378 | the exact condition under which a queue entry goes into the block, and under which the queue turns to ordering by fee |
| Miner.Release | src/miner.cpp:386-402 | every waiting transaction forgets the included one, and is queued exactly when it has nothing left to wait for |
| Miner.TakeOne | src/miner.cpp:281-403 | one round: a greatest entry of the queue leaves it, its transaction joins the block exactly when it is valid there and fits, and the queue turns to fees exactly when it should |
| Miner.CreateNewBlock | src/miner.cpp:171-403 | the rounds of the template: each is that of a greatest transaction whose parents are in the block and that had no round yet, and puts it into the block exactly when it is valid there and fits; all such have a round; the block is ordered by dependency, spends no output twice and keeps the limits |
| Miner.QueueExhausted | src/miner.cpp:281-403 | with an empty queue, a transaction has been considered exactly when all its parents are included |
| MinerPool.ParentsInView | src/miner.cpp:213-225 | every in-pool parent of an accepted transaction is in the view it was accepted on |
| MinerPool.ChainIsOrdered | src/miner.cpp:386-402 | every in-pool parent of a listed transaction is listed before it |
| MinerPool.ChainSpendsOnce | src/miner.cpp:323-371 | no output is spent by two listed transactions, or twice by one |
| Template.TemplateConnects | src/miner.cpp:373-378 | a block made of an accepted head and the kept transactions of the schedule connects transaction by transaction, side by side with the schedule |
| Template.TemplateIsAcceptable | src/miner.cpp:171-403 | the proof-of-work block built from a template is one that ConnectBlock accepts |
| Template.KeptInputsStay | src/main.cpp:4108-4111 | dropping the transactions from after the coinstake's time drops no input of a kept one |
| Template.SignedIsAcceptableExactly | src/main.cpp:4062-4125 | the proof-of-stake block with an accepted coinstake, after the later transactions are dropped, is accepted if and only if no kept transaction spends what the coinstake does, and the coinstake stays within the subsidy and the fees of the kept transactions and pays the donation due for these |
| Template.ClaimsDroppedFees | src/main.cpp:4090-4113 | a coinstake that claims the fees of the whole template is accepted if and only if no dropped transaction pays a fee |
| OrphanPool.COrphanPool.AddOrphanBlock | src/main.cpp:1842-1862 | both indexes hold the block, the size counter is the total size, and a proof-of-stake block's stake counts as seen |
| OrphanPool.COrphanPool.GetOrphanRoot | src/main.cpp:1799-1812 | the first block of an orphan's chain, whose predecessor is not an orphan |
| OrphanPool.COrphanPool.WantedByOrphan | src/main.cpp:1825-1831 | the missing predecessor of an orphan's chain |
| OrphanPool.COrphanPool.Remove | src/main.cpp:1879-1891 | a block leaves both indexes, the size counter and the stakes together |
| OrphanPool.COrphanPool.RemoveChain | src/main.cpp:1873-1893 | exactly a block and its orphan predecessors are removed |
| OrphanPool.COrphanPool.PruneObsolete | src/main.cpp:1867-1895 | exactly the predecessors of blocks before the checkpoint are removed, although the map shrinks under the loop |
| OrphanPool.DoomedExactly | src/main.cpp:1867-1895 | a block is removed if and only if it precedes an obsolete one |
| OrphanPool.FindLeaf | src/main.cpp:1905-1911 | following successors ends at a block that no orphan waits for |
| OrphanPool.COrphanPool.PruneOrphanBlocks | src/main.cpp:1865-1920 | pruning terminates within the cap; the cap loop evicts only blocks that no orphan waits for, and none once the cap is met |
| OrphanPool.OfferChildren | src/main.cpp:3947-3963 | each child is offered and removed; the accepted ones join the work queue |
| OrphanPool.COrphanPool.OfferWaiting | src/main.cpp:3946-3964 | exactly the blocks waiting for one block are offered and leave both indexes |
| OrphanPool.COrphanPool.AcceptOrphans | src/main.cpp:3941-3965 | the work queue ends; every orphan reachable through accepted orphans was offered once, parent first, and removed |
| Kernel.GetStakeModifierSelectionInterval | src/kernel.cpp:60-67 | the sum of the 64 sections |
| Kernel.SectionsCoverInterval | src/kernel.cpp:53-67 | every section is between a third of the modifier interval and all of it |
| Kernel.Candidates.SearchEnds | src/kernel.cpp:83-88 | stopping at the first late candidate is right: no later one could have been chosen |
| Kernel.SelectBlockFromCandidates | src/kernel.cpp:72-117 | for known candidates, fails exactly when none is free, as in an empty list; on success the least selection hash up to the stop time, or the earliest free candidate when none is in time; it always fails when a candidate up to the stop time is not a known block |
| Kernel.GetLastStakeModifier | src/kernel.cpp:22-34 | the last generated modifier on the chain and its time, failing exactly when there is none |
| Kernel.CollectCandidates | src/kernel.cpp:208-215 | the blocks of the selection interval, oldest first |
| Kernel.Sort | src/kernel.cpp:216 | sorted by time and hash, and a permutation |
| Kernel.SelectRounds | src/kernel.cpp:220-236 | no round fails; exactly min(64, candidates) distinct blocks are chosen, each as its round demands, the first one not after 200 seconds from the start while some candidate is not, and bit r of the modifier is the r-th block's entropy bit |
| Kernel.ComputeNextStakeModifier | src/kernel.cpp:182-266 | when a modifier is generated and what it is; the only failure is a chain without any generated modifier |
| MixinPool.SkipPicked | src/core.cpp:60-63 | the adjusted index is an unpicked valid one, the iPick-th of them |
| MixinPool.InsertPosition | src/core.cpp:67 | the set of picked positions stays ordered and gains the position |
| Mixins.PickRandom | src/core.cpp:54-84 | the key at the drawn place leaves the drawn one of the entries that were not picked from, and its transaction is remembered as used |
| Mixins.PickUsed | src/core.cpp:110-144 | the key at the drawn place leaves the entry of the first used transaction that has one not picked from, exactly when there is one; otherwise nothing changes |
| Mixins.RemoveEmptyTx | src/core.cpp:39-52 | exactly the empty entries are gone, although positions shift while erasing |
| Mixins.PickOne | src/core.cpp:101-153 | one more key from one more entry, from a used transaction or a drawn entry as the draws say |
| Mixins.PickRing | src/core.cpp:98-160 | succeeds exactly when there are enough entries, and grows member by member as the draws say; pool before is pool after plus what was picked |
| Mixins.AddTo | src/core.cpp:9-25 | the key is filed last under its transaction, every other transaction's keys are as before |
| Mixins.CMixins.AddAnonOutput | src/core.cpp:27-37 | the key is filed under its transaction, among the recent ones for 2700 blocks and among the old ones afterwards; the other container and other values are untouched |
| Mixins.CMixins.Pick | src/core.cpp:87-161 | succeeds exactly when n transaction entries are there; then n keys of n different entries, chosen as the draws say, no empty entry left and every transaction picked from remembered; otherwise nothing changes |
| Mixins.Run | src/core.cpp:9-161 | over every run of AddAnonOutput and Pick, for every value, the keys added are the keys left together with all keys picked, so that no key is picked more often than it was added and none is lost |
| BlockLocator.CBlockLocator.Set | src/main.h:1822-1838 | the hashes at depths 0 to 11 and then at doubling distances, and the genesis hash |
| BlockLocator.LocatorIsShort | src/main.h:1822-1838 | at most 12 entries more than the binary logarithm of the height |
| BlockLocator.GetBlockIndex | src/main.h:1871-1885 | the first listed block that passes the test for the main chain, or the genesis block |
| BlockLocator.FindCommon | src/main.h:1822-1885 | a common ancestor: the fork itself up to depth 11, and less than twice as deep as the fork otherwise |
| CompactTargets.GetCompact | src/bignum.h:343-354 | the compact encoding, assembled from the big-endian bytes |
| CompactTargets.SetCompact | src/bignum.h:331-341 | the number a compact form stands for, sign included |
| CompactTargets.DecodeEncode | src/bignum.h:331-354 | decoding an encoding keeps exactly the three leading bytes |
| CompactTargets.EncodingLosesLittle | src/bignum.h:331-354 | the result is no larger, by less than one part in 32768 |
| CompactTargets.EncodeMonotone | src/bignum.h:343-354 | larger numbers have encodings that are not smaller |
| CompactTargets.EncodeBelow | src/bignum.h:331-354 | two encodings differ exactly when the smaller number is below what the encoding of the larger one stands for |
| CompactTargets.EncodeIdempotent | src/bignum.h:331-354 | encoding what an encoding stands for gives it back |
| Retarget.GetLastBlockIndex | src/main.cpp:1925-1931 | the last block of the kind, or the first block, as a number of steps back: every block in between is of the other kind |
| Retarget.GetNextTargetRequired | src/main.cpp:1940-1976 | never decodes above the limit; the exact bits in each of the cases |
| Retarget.OnTargetKeepsBits | src/main.cpp:1955-1975 | a spacing exactly on target requires the same canonical bits again |
| Retarget.HarderExactly | src/main.cpp:1955-1975 | for any bits, limit and intended spacing, the longer of two spacings, negative ones included, requires the harder target exactly when the shorter one is negative and the longer short of the target, or the shorter one makes the target vanish, and the difference shows in the encoding |
| Retarget.HarderPairs | src/main.cpp:1955-1975 | for an intended spacing up to eight hours, which pairs these are: with a previous target of at least 2 only those from a negative spacing to one short of the target; with 1 only those from one short of the target to one that is not |
| Retarget.LongerIsEasierExactly | src/main.cpp:1955-1975 | the required target is monotone in the actual spacing if and only if the previous target is not positive, or is 1 with a limit of at most 1, or is so far above the limit that a spacing of zero still yields the limit |
| Retarget.LongerIsEasierForward | src/main.cpp:1955-1975 | among spacings that are not negative it is monotone if and only if the previous target is at least 2, for a positive one and a limit above 1 |
| Retarget.NegativeIsTheOtherException | src/main.cpp:1957-1958 | for every previous target from 2 up to the limit, a spacing of -1 requires an easier target than a spacing of 0 |
| Retarget.NegativeExample | src/main.cpp:1957-1958 | such bits |
| Retarget.OneIsTheException | src/main.cpp:1972-1973 | for previous target 1 a short spacing makes the target zero, which is replaced by the limit |
| BitPacking.ExtractBit | src/extkey.cpp:1026-1041 | the word taken out of three bytes has the eleven bits from the offset on |
| BitPacking.InsertBit | src/extkey.cpp:1142-1160 | a word put into three bytes adds its eleven bits and keeps what was before |
| Mnemonic.Unpack | src/extkey.cpp:1018-1046 | words of eleven bits that carry the row's bits in order; the last one may go beyond the wanted bits |
| Mnemonic.Pack | src/extkey.cpp:1129-1162 | a row that carries the words' bits in order and nothing else |
| Mnemonic.MnemonicEncode | src/extkey.cpp:989-1047 | for entropies of any length, the words carry its bits, the bits of the used bytes of its hash, and zeros; it fails exactly outside 1 to 256 whole groups of four bytes |
| Mnemonic.MnemonicDecode | src/extkey.cpp:1092-1200 | nothing from a text of 2048 characters or more; otherwise the entropy, exactly when the number of words is right and the checksum matches |
| Mnemonic.RowOfEncoding | src/extkey.cpp:1004-1162 | the row decoded from an encoding is the entropy followed by the hash bits that the words hold |
| Mnemonic.EncodeAndDecode | src/extkey.cpp:989-1200 | for entropies of any length the round trip, checksum included, works if and only if the text is shorter than 2048 characters, and the entropy is of 1 to 31 groups of four bytes, or has three bytes over 31 groups or more and a hash whose bits between the end of the used bytes and the end of the expected checksum are clear |
| Mnemonic.RestWithBytesOver | src/extkey.cpp:1166-1196 | the condition on the hash: the checksum matches exactly when these bits are clear |
| Base58.RebaseRoundTrip | src/base58.h:32-124 | changing base and back gives the same digits, leading zeros included, in any two bases |
| Base58.EncodeBase58 | src/base58.h:32-70 | the number in base 58 with a 1 for every leading zero byte |
| Base58.DecodeBase58 | src/base58.h:80-124 | fails exactly on texts that are not an alphabet text in white space; otherwise the bytes of its number with leading zeros |
| Base58.EncodeThenDecode | src/base58.h:32-124 | every byte string comes back |
| Base58.DecodeThenEncode | src/base58.h:32-124 | every text over the alphabet comes back |
| AddrLaws.SafeExactly | src/addrman.cpp:36-54 | which entries may never be deleted, in minutes, days and attempts |
| AddrLaws.GoodIsSafe | src/addrman.cpp:36-54 | an entry that has just worked is safe for exactly thirty days from then |
| AddrLaws.FullBucketLoses | src/addrman.cpp:148-200 | a full bucket that an entry enters loses the deletable entry with the lowest id; without one it loses, of the entries at four drawn positions, one seen longest ago, with the lowest id on a tie |
| AddrLaws.UnknownIsNew | src/addrman.cpp:349-366 | the entry of an unknown address has what was heard, the time less the penalty, and one reference in the bucket of its source |
| AddrLaws.RefreshExactly | src/addrman.cpp:322-329 | when the time of a known entry is replaced by the one heard less the penalty, and that services only accumulate |
| AddrLaws.GainsExactly | src/addrman.cpp:331-366 | a known entry gains a reference exactly when it is untried, has fewer than four, is heard of later than seen, is not in the bucket yet, and one draw among 2, 4 or 8 is zero |
| AddrLaws.EvictedGoesHome | src/addrman.cpp:229-256 | the entry evicted from a full tried bucket is afterwards in the bucket of its own address and source whenever that had room, and otherwise in the bucket of origin, and in no other than before |
| AddrLaws.ReportedIs | src/addrman.cpp:132-145 | the position reported is the one drawn in the round of the first slot whose entry in the end has the earliest last success of the first four |
| AddrLaws.SpreadIsLimited | src/addrman.cpp:8-34 | addresses of one network are in at most four tried buckets, and those from one source in at most 32 "new" ones |
| AddrLaws.HandsOut | src/addrman.cpp:499-503 | 23 of 100 known addresses, rounded down, and 2500 at most |
| AddrLaws.SuccessIs | src/addrman.cpp:278-281 | a connection that worked sets all three times and forgets the failures |
| AddrLaws.MovesKeepKnowledge | src/addrman.cpp:160-256 | moving between tables and losing references changes nothing that is known of any address |
| AddrLaws.PlacesOnly | src/addrman.cpp:104-122 | entries that differ in their places in the permutation agree in everything else |
| AddrLaws.RestartKeeps | src/addrman.h:677-809 | field by field, what a restart keeps of every entry, and that it keeps table, references and buckets |
| AddrLaws.ConsistentExactly | src/addrman.cpp:439-496 | the condition that the self-check passes, entry by entry and bucket by bucket |
| AddrLaws.CodesAre | src/addrman.cpp:451-468 | the number of the complaint about an entry |
| AddrRead.KeptTriedExactly | src/addrman.h:772-789 | one more tried entry is kept exactly when fewer than 64 of those before it belong to its bucket |
| AddrRead.KeptNameExactly | src/addrman.h:796-805 | one more number in a bucket is kept exactly when it was named fewer than four times before |
| AddrRead.HomesAre | src/addrman.h:762-767 | with another number of buckets, the own bucket of an entry lists it and no other does, in the order of the file |
| AddrRead.KeptIs | src/addrman.h:747-807 | what is kept of a file, and how the counter of tried entries is corrected |
| BlockLaws.AcceptedExactly | src/main.cpp:2475-2619 | a transaction is accepted exactly when it is a coinbase or: every input that counts names a known, unspent, no younger, spendable, signed output of possible value, no two the same one, the sum is possible, anonymous inputs are valid, and, but for a coinstake, its outputs are possible and its inputs exceed them by at least the minimum fee and by a possible amount |
| BlockLaws.BlockPaysFees | src/main.cpp:2596-2615 | in a block that connects, what the inputs of every transaction that is neither coinbase nor coinstake bring exceeds its outputs by at least the minimum fee |
| BlockLaws.BlockExactly | src/main.cpp:2676-2867 | the exact condition under which a block connects, on its transactions and the entries of the index |
| BlockLaws.InputValuesAre | src/main.cpp:2483-2519 | the inputs add up the values of the outputs they name, but for those of anonymous value |
| BlockLaws.OutputValuesAre | src/main.cpp:2752-2770 | outputs add up, and which of them belong to the anonymous supply |
| BlockLaws.MarkersAre | src/main.h:357-366 | which transactions are coinbases and which are coinstakes |
| BlockLaws.SumsAre | src/main.cpp:2752-2793 | what one more transaction adds to each running sum of a block, and to its signature operations |
| BlockLaws.SuppliesAre | src/main.cpp:2847-2852 | mint, money supply and anonymous supply recorded with a block, by the sums of its transactions |
| BlockLaws.EntriesAre | src/main.cpp:2536-2563 | connecting a transaction, entry by entry: its own is new and unspent, and exactly the outputs its inputs name are marked |
| ChainLaws.ChainAddsUp | src/main.cpp:3515-3523 | trust and height of a block by those of its predecessor |
| ChainLaws.WaysAre | src/main.cpp:2908-2918 | the blocks to take off, from the tip back to after the fork, and those to put on, from after the fork up |
| ChainLaws.AcceptedExactly | src/main.cpp:2940-2957 | a chain is accepted exactly when each block is acceptable to the index of those before it |
| ChainLaws.IndexGrows | src/main.cpp:2712-2799 | the index of a block grows transaction by transaction |
| ChainLaws.StandsForMeans | src/main.cpp:2961-2973 | what it means that the database stands for a block: its hash, index, supplies, and the link of every predecessor |
| ChainLaws.SuppliesAlong | src/main.cpp:2847-2852 | supplies along a chain, starting with nothing |
| ChainLaws.AttachedExactly | src/main.cpp:2991-3014 | attaching one block in any state: when it goes through, and what each field is then |
| ChainLaws.AdoptsExactly | src/main.cpp:3016-3091 | in step, a block with more trust becomes the best exactly when the first such block of its branch can be committed and accepted, and, off the best chain, every block back to the fork and up to it can be read |
| ChainLaws.AddedExactly | src/main.cpp:3502-3575 | a known block is refused; another is filed, and tried exactly when its entry is written and it has more trust than the best |
| MerkleTree.LevelIs | src/main.h:870-887 | the level above: neighbours hashed left before right, a last odd one with itself; levels one after the other |
| MerkleTree.RootsAre | src/main.h:870-887 | the roots of up to four leaves |
| PartialMerkleTree.CheckedExactly | src/main.cpp:3360-3393 | when ExtractMatches returns the root and when 0, test by test |
| PartialMerkleTree.HeightIs | src/main.cpp:3349-3353 | the height of the tree, and how many leaves a level of some width covers |
| PartialMerkleTree.ExtractTakes | src/main.cpp:3306-3341 | what one step of the traversal takes from the bits and hashes, and how two subtrees are combined |
| PartialMerkleTree.BitsAre | src/main.h:2168-2190 | bit k of a byte is worth two to the k |
| MinerLaws.RoundMeans | src/miner.cpp:271-391 | one round of the template in numbers: whose it is, when its transaction goes into the block, and when the queue turns to fees; the first starts empty, by fee exactly when no room is kept for priorities |
| MinerLaws.RefusedInItsRound | src/miner.cpp:281-378 | a transaction that had a round and is not in the block was refused there for size, signature operations, time or fee, or could be connected neither then nor to the finished block |
| MinerLaws.TakenExactly | src/miner.cpp:281-378 | with the limits out of reach, a transaction is in the block exactly when it could be connected in its round |
| MinerLaws.TemplateIsFull | src/miner.cpp:281-378 | with the limits out of reach, the block holds every transaction that can be scheduled, has its parents in the block and could still be connected to it |
| MinerLaws.RegisteredExactly | src/miner.cpp:174-245 | which pooled transactions are scheduled |
| MinerLaws.ParentsExactly | src/miner.cpp:190-225 | a transaction waits exactly for those its inputs name that are not on disk with the output named |
| MinerLaws.FeeIs | src/miner.cpp:226-260 | the fee is what the inputs bring, on disk, in the pool and anonymously, less the outputs |
| MinerLaws.RanksAre | src/miner.cpp:246-270 | by what a transaction is ranked, and the sums of the block |
| MinerLaws.PoolViewIs | src/miner.cpp:365-371 | the test pool is the database with the transactions of the block connected in order |
| MinerLaws.PoolAcceptedExactly | src/miner.cpp:318-365 | when a pooled transaction may be connected on top of the test pool, input by input |
| OrphanPool.ChainIs | src/main.cpp:1873-1893 | a chain goes from predecessor to predecessor as far as the pool has them |
| OrphanPool.OfferedMeans | src/main.cpp:3941-3965 | every offered block comes once and after the accepted one it waited for; what waited for an accepted one was offered |
| Kernel.SectionExactly | src/kernel.cpp:53-58 | section n is the whole quotient of 37800 by 63 + 2 * (63 - n): 200 seconds first, 600 last |
| Kernel.SectionsGrow | src/kernel.cpp:53-58 | no section is shorter than the one before it |
| Kernel.LastGeneratedIs | src/kernel.cpp:22-34 | the last generated modifier is that of the nearest block back that generated one |
| Kernel.WindowIs | src/kernel.cpp:208-215 | the candidates are the blocks back to the first one from before the start |
| Kernel.HashIs | src/kernel.cpp:95-103 | the selection hash, divided by two to the 32 for proof of stake |
| Kernel.RoundMeans | src/kernel.cpp:220-236 | every round takes, of the candidates left, one with the least selection hash up to its stop time, the earliest on a tie, and an earliest one when none is in time |
| Kernel.FirstRoundMeans | src/kernel.cpp:220-236 | the first round never takes a block after 200 seconds from the start while one up to then exists |
| Mixins.AnyOrder | src/core.cpp:110-112 | every order of the used transactions can be drawn |
| Mixins.LastIsDrawn | src/core.cpp:110-112 | the last of the shuffled ones is the one drawn for its place |
| MixinLaws.TookMeans | src/core.cpp:65-79 | one key leaves one entry and joins the ring, that at the drawn place, and nothing else changes |
| MixinLaws.AgainMeans | src/core.cpp:104-146 | with a draw below 33 of 100, the member is from the first used transaction, after shuffling, that has an entry left |
| MixinLaws.DrawnMeans | src/core.cpp:148-153 | otherwise it is from the drawn entry left, among the recent ones exactly when some are left and the draw is at least 66 or no old ones are |
| MixinLaws.TurnsMean | src/core.cpp:101-154 | a ring starts empty, and may use again only what earlier rings used |
| CompactTargets.EncodeExactly | src/bignum.h:343-354 | the size in bytes above the three leading bytes, as an inequality |
| CompactTargets.CompactExamples | src/bignum.h:331-354 | some compact forms, and what they stand for |
| Retarget.LastOfKindIs | src/main.cpp:1925-1931 | every block after it is of the other kind, and it is of the kind or the first block |
| Retarget.MovesInRatio | src/main.cpp:1964-1970 | for a spacing that divides a day, the target moves in the ratio of 86400 less the spacing plus twice the counted one, to 86400 plus the spacing |
| Retarget.WhatCounts | src/main.cpp:1955-1973 | which spacing counts, and when the limit replaces the moved target |
| BitTables.ByteBitIs | src/extkey.cpp:1026-1041 | what each bit of a byte is worth |
| BitTables.WordBitIs | src/extkey.cpp:1026-1041 | what each bit of a word is worth |
| Mnemonic.CountsAre | src/extkey.cpp:1004-1018 | one bit of checksum for every four bytes, and as many words as hold both |
| Mnemonic.ZeroEntropy | src/extkey.cpp:989-1047 | the words of sixteen zero bytes: eleven zeros and the upper half of the first byte of the hash |
| Base58.CharactersAre | src/base58.h:29-124 | the characters of the digits, and white space, by their codes |
| Base58.NumbersAre | src/base58.h:32-124 | a number and its digits, most significant first |
| Base58.RebaseKeeps | src/base58.h:32-124 | another base changes neither the number nor the leading zeros |
| Base58.TextsAre | src/base58.h:32-70 | the texts of three byte strings |

## Left out

- AddrManager.CAddrMan.Unserialize: images of more than 256 "new" buckets, for which the original indexes a vector out of range, are not modelled (`Format`), and the secret key read back is the one the manager has.
- AddrManager.SelectTried: takes a bucket without repetitions, which consistent tables have.
- OrphanPool.COrphanPool.PruneOrphanBlocks: evicts blocks that no orphan waits for, but any of them: the drawn position in the multimap from which the original starts its walk is not modelled.
- Miner.RegisterOne: priority and fee rate of a transaction are given by the policy; how the original adds them up in floating point is not modelled.
- Mnemonic.EncodeAndDecode: is about the numbers of words; the list of words of a language enters by the lengths of its words, given that looking a word up is the inverse of writing it.
- Mnemonic.MnemonicEncode: leaves out lengths for which the original reads beyond the 32 bytes it appends (`FitsRow`), and the list of words: a word is its number.
- Mnemonic.MnemonicDecode: leaves out checksums of more than 256 bits, for which the original reads beyond the hash; `EncodeAndDecode` therefore covers up to 249 whole groups of four bytes.
- Retarget.GetNextTargetRequired: takes the limit and the target spacing of the height as parameters, a spacing between 1 second and 24 hours; that the original reads the last block's height before it asks whether there is one is not modelled.
- Miner.CreateNewBlock: assumes that every pooled transaction's inputs are on disk or in the pool, as the original's comment does, and that the pool and the index share no transaction.
- Template.TemplateIsAcceptable: takes the answer of the maturity checks to be the same at the previous block and at the new one; the coinbase claims exactly the reward.
- Template.SignedIsAcceptableExactly: the same for maturity; how a coinstake is found, and that it is accepted by itself, is a premise.
- ChainPaths.ChainConservesSupply: assumes that no ordinary input names an anonymous output (`TransparentChain`), since the value read for such an input leaves no trace in the index.
- ConnectBlocks.ConnectInputs: the answers of the maturity check and of the check of anonymous inputs depend on the transactions only; the original's also depend on the depth of the previous transaction and on the key images in the database.  That signature checks are skipped below the last checkpoint is left to the answer of the signature check.
- ConnectBlocks.ConnectBlock: the check-only mode and failing index writes are not modelled; coin age of early protocol versions is part of the subsidy oracle.
- ConnectBlocks.FetchInputs: the variant for transactions entering the memory pool is not modelled.
- ChainAgreement.AddedInStep: assumes of the new block that it is `Undoable` where it is; for other blocks `ChainState.CBlockChain.AddToBlockIndex` states what is done, but not what the database stands for.
- ChainParting.RejoinsExactly: is about the states from parting up to the first reorganisation that goes through, with blocks attached on top in between that have no anonymous input shapes reaching into the index; after one that does not rejoin, `AdoptedReplaces` states the index, and nothing is said about a second one.
- OrphanPool.COrphanPool.AddOrphanBlock: assumes that no chain of hash links is a cycle, and that the block is not in the pool yet, as its caller checks.
- PartialMerkleTree.CPartialMerkleTree.FromBlock: blocks without transactions, for which the original reads past the end of the list, are excluded.
- Base58.DecodeBase58: texts are without the terminating zero character, which the original takes as their end.
- BlockLocator.CBlockLocator.Set: the step is unbounded; it would overflow 32 bits only for chains of over a thousand million blocks.
- Chain index entries are values with their predecessor inside; the fields that change in place (forward links, supplies) are maps by hash.  Aliasing between entries is not modelled.
- Updates of the memory pool, of the wallet and of the caches of anonymous outputs when blocks connect or disconnect.
- Anonymous inputs beyond their summed value: rings, key images and their signatures.
- The reward of a proof-of-work coinbase as a mint bound, since only proof-of-stake blocks are checked for further coinstakes.
- `Select_` and `GetChance`, whose choice is by floating-point weights; priorities of the template are real numbers without rounding.
- All variants for thin clients, which repeat the full ones.
- Network, RPC, storage formats, scripts and cryptography.
