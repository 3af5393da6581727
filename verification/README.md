# Caesar: a verified model of the ledger, mempool, sync and pool payout

Caesar is a proof-of-work node with an unspent-output ledger. This project models its core in Dafny and proves what the
parts promise together: what every valid chain satisfies, down to its work, difficulty and issuance in numbers; that nothing
leaves the ledger without its owner's signature; what the mempool keeps over every run; why two nodes agree after one round
of synchronisation; what a commit does to the stored chain in every interleaving; and what a block hash commits to.

`dafny verify dfyconfig.toml` checks the whole project.

## How to read it

| Part | Modules |
|---|---|
| Bytes and records | `Types`, `Serialization`, `TransactionCodec`, `BlockCodec`, `BinaryIo`, `Layout` |
| Commitments | `Merkle`, `MerkleTree`, `Commitment`, `Repetition`, `ChainAgreement` |
| Rules of a block | `Consensus`, `Coinbase`, `Rules` |
| Ledger | `Sums`, `Utxo`, `ChainValidator`, `ChainFacts`, `Schedule`, `ValidBlocks`, `Authorization`, `Confirmed` |
| Mempool | `Pool`, `Sweep`, `Mempool`, `Provenance`, `PoolRuns`, `SweepRuns`, `Reorg`, `BlockBuilder`, `Genesis` |
| Fork choice and sync | `ChainWork`, `Replacement`, `Relay`, `Locators`, `Sessions`, `SyncRound` |
| Storage, node, wallet, payout | `Storage`, `Limits`, `Node`, `NodeSync`, `Wallet`, `Payout` |

What the source updates in place is a class (`UTXOSet`, `Mempool`, `ChainWork`, `SyncTable`, `BlockchainStorage`, `Node`,
`Scan`, `ShareBook`, `BinaryWriter`, `BinaryReader`); what it computes in a loop is a method with invariants. Each method is
proved against a function or predicate, and the theorems are about those. Exceptions and error returns are `Option` values or
outcome datatypes. Every thread of the node is a sequence of critical sections, so the methods of `Node`, `SyncTable` and
`ShareBook`, called in any order, are all the interleavings.

SHA-256, the proof-of-work hash, key parsing, address derivation and signature checking are constants without a value:
nothing is assumed about them beyond their types. A theorem that needs the hash to be free of collisions says so for the
finite set of byte strings that are hashed (`CollisionFree`), never for all strings.

Validation does not enforce distinct coinbase ids. Chains with repeated coinbases are covered by everything about validity,
storage, the node, block production and synchronisation; only the theorems that the pool always fits its chain and that the
wallet agrees with the ledger assume distinct ids. Valid chains exist: `GenesisIsValid` gives the first one and
`ValidChainsGrow` every longer one that can be mined.

## Where the promise fails, and exactly when it holds

- The mempool can admit a transaction after which it finds no order any more, and then admits nothing. No order may exist
  (`AdmittedButStuck`, on valid chains with a repeated coinbase), or one exists that the sweep by id misses
  (`SweepByIdMisses`). `OrderableIffFresh` says exactly when an order exists, `AlwaysSweptIffFresh` exactly when every sweep
  succeeds, and `EveryPoolOrderly` that distinct coinbases exclude both; those that the builder makes are distinct
  (`BuiltCoinbasesDiffer`).
- A relayed batch changes the chain and leaves the pool alone, so the pool need not fit the stored chain. Blocks are still
  built from it soundly: a mined block is refused exactly if its coinbase id is already unspent (`MinedBlockAccepted`,
  `MineUndisturbed`).
- After a reorganisation the pool fits the new chain if that has no unspent output of an old entry that it could fund again
  (`FundedAreFresh` in `RevalidateAfterReorg`). Chains with distinct ids have none (`DistinctIdsMeetIt`); one with a repeated
  coinbase can have one.
- `save` checks neither the block count nor the decoder caps that `load` enforces; `LoadAfterSave` says exactly which saved
  chains load again, and `SavedButUnloadable` and `MinedButUnloadable` give ones that do not.
- The Merkle root alone does not fix the number of leaves (`RootIgnoresRepeatedLast`); it fixes the list
  if the counts are equal or no stretch of leaves is repeated back to back, and blocks of valid chains never do that
  (`BlockUnrepeated`).
- Locators reach genesis exactly up to tip index 2^22 + 8 (`LocatorsReachGenesis`).
- The wallet shows genesis outputs although the ledger never holds them: from the canonical
  genesis it is right exactly for all addresses but the burn address (`WalletExactFromCanonical`).
- If the pool fee exceeds the distributable amount the subtraction wraps and a payout can fail for lack of outputs
  (`ShortIff`, `OneWorkerShortIff`); it cannot otherwise (`FeeWithinSuffices`).

Where documentation and code disagree the model follows the code: the documentation retargets every window, but from height
40 on the difficulty is fixed at 8 (`DifficultyBounded`), so past the first 40 blocks the chain with more work is simply the
longer one (`MoreWorkIffLonger`). The cache of the node is invalidated after a relayed batch has released the chain lock, so a
reader can see the previous chain in between (`Node.Node.Chain`).

## Model

| member | source | states |
|---|---|---|
| `Serialization.TakePutInt` | include/caesar/serialization.hpp:18-26 | a fixed-width little-endian integer reads back, whatever follows it |
| `Serialization.PutTakeInt` | include/caesar/serialization.hpp:61-83 | a read fails exactly if too few bytes are left; otherwise the bytes consumed are the encoding of the value |
| `Serialization.TakePutBlob` | include/caesar/serialization.hpp:32-40 | a length-prefixed string reads back under any cap it respects |
| `Serialization.PutTakeBlob` | include/caesar/serialization.hpp:96-108 | a string that reads was written canonically and respects the cap |
| `Serialization.TakePutMany` | include/caesar/transaction.hpp:105-135 | a list of items reads back if each item does |
| `Serialization.PutTakeMany` | include/caesar/transaction.hpp:160-206 | a list that reads is the concatenation of the encodings of its items |
| `TransactionCodec.FullRoundTrip` | include/caesar/transaction.hpp:137-206 | a transaction with its witnesses reads back, whatever follows it |
| `TransactionCodec.FullInverse` | include/caesar/transaction.hpp:160-206 | bytes that parse as a transaction are its encoding |
| `TransactionCodec.BaseRoundTrip` | include/caesar/transaction.hpp:208-246 | the witness-free form reads back as the transaction without its witnesses |
| `TransactionCodec.BaseInverse` | include/caesar/transaction.hpp:208-246 | bytes that parse as a witness-free transaction are its encoding |
| `TransactionCodec.CodecBijection` | include/caesar/transaction.hpp:137-206 | decoding undoes encoding exactly for transactions within the decoder caps, and encoding undoes decoding for all bytes that decode |
| `TransactionCodec.EncodeInjective` | include/caesar/transaction.hpp:137-158 | the full encoding determines the transaction, with no cap assumed |
| `TransactionCodec.BaseInjective` | include/caesar/transaction.hpp:105-135 | two transactions with one witness-free encoding differ only in their witnesses |
| `BlockCodec.HeaderRoundTrip` | include/caesar/block.hpp:28-78 | a header takes 128 bytes and reads back |
| `BlockCodec.HeaderInverse` | include/caesar/block.hpp:54-78 | bytes that parse as a header are its encoding |
| `BlockCodec.HeaderInjective` | include/caesar/block.hpp:28-47 | the header encoding determines the header |
| `BlockCodec.BlockCodecBijection` | include/caesar/block.hpp:152-219 | decoding undoes encoding exactly for blocks within the decoder caps, and encoding undoes decoding |
| `BinaryIo.BinaryWriter.WriteInt` | include/caesar/serialization.hpp:18-26 | the shifting loop appends the little-endian encoding |
| `BinaryIo.BinaryWriter.WriteBlob` | include/caesar/serialization.hpp:32-40 | appends a length-prefixed string |
| `BinaryIo.BinaryReader.ReadInt` | include/caesar/serialization.hpp:61-83 | the accumulating loop reads what the integer decoder takes and moves past it, or fails with it |
| `BinaryIo.BinaryReader.ReadBytes` | include/caesar/serialization.hpp:85-94 | reads the next bytes and moves past them, or fails exactly if they are not there |
| `BinaryIo.BinaryReader.ReadBlob` | include/caesar/serialization.hpp:96-108 | reads a length-prefixed string, or fails exactly if it is too long or truncated |
| `BinaryIo.SerializeBase` | include/caesar/transaction.hpp:105-135 | the buffer loops produce the witness-free encoding |
| `BinaryIo.SerializeFull` | include/caesar/transaction.hpp:137-158 | the buffer loops produce the full encoding |
| `BinaryIo.DeserializeFull` | include/caesar/transaction.hpp:160-206 | the reader loops decode exactly the strings the decoder accepts, to the same transaction |
| `BinaryIo.SerializeHeader` | include/caesar/block.hpp:28-47 | produces the header encoding |
| `BinaryIo.WriteTransactions` | include/caesar/block.hpp:163-173 | each transaction after its size, or a throw exactly if a size needs more than four bytes |
| `BinaryIo.SerializeBlock` | include/caesar/block.hpp:152-175 | produces the block encoding, and throws exactly if a count or size needs more than four bytes |
| `BinaryIo.DeserializeBlock` | include/caesar/block.hpp:177-219 | the reader loops decode exactly the strings the block decoder accepts, to the same block |
| `Layout.BaseLayout` | include/caesar/transaction.hpp:105-135 | the bytes of the witness-free form, field by field |
| `Layout.FullLayout` | include/caesar/transaction.hpp:137-158 | the bytes of the full form, and what the two ids hash |
| `Layout.MessageLayout` | include/caesar/transaction_signature.hpp:16-37 | the bytes that are signed for an input |
| `Layout.DomainText` | include/caesar/transaction_signature.hpp:22-24 | the text that opens them |
| `Layout.HeaderLayout` | include/caesar/block.hpp:28-49 | the bytes of a header |
| `Layout.BlockLayout` | include/caesar/block.hpp:152-175 | the bytes of a block, and what its hash covers |
| `Layout.FileLayout` | include/caesar/blockchain_storage.hpp:137-145 | the bytes of the chain file |
| `Merkle.ComputeMerkleRoot` | include/caesar/crypto.hpp:58-77 | the halving loop computes the root that is defined level by level |
| `Merkle.Halve` | include/caesar/crypto.hpp:63-73 | one pass of the loop computes the next level, with the last digest paired with itself if it has no partner |
| `Merkle.RootCommitsToList` | include/caesar/crypto.hpp:50-77 | without a collision among the hashed pairs, lists of one length with one root are equal |
| `Merkle.RootIgnoresRepeatedLast` | include/caesar/crypto.hpp:58-77 | the length matters: repeating the last of an odd number of digests, three or more, leaves the root unchanged |
| `Merkle.LongerRepeats` | include/caesar/crypto.hpp:58-77 | of two lists of equal depth with one root, the longer one repeats a stretch of digests back to back |
| `Merkle.RootCommitsToUnrepeatedList` | include/caesar/crypto.hpp:50-77 | lists of any lengths that repeat no stretch back to back and have one root are equal, if no leaf is the digest of a pair |
| `Merkle.LeavesFound` | include/caesar/crypto.hpp:58-77 | each leaf of one list is found in any other list with the same root and depth |
| `MerkleTree.RootIsSubtree` | include/caesar/crypto.hpp:50-77 | the halving loop gives the root of the binary tree of least depth, defined from the top down, whose missing right halves repeat the left ones |
| `Commitment.HashCommitsToBlock` | include/caesar/block.hpp:28-121 | two blocks with equal hash and transaction count that pass both root checks are identical, witnesses included |
| `Commitment.HashCommitsToUnrepeatedBlock` | include/caesar/block.hpp:28-121 | the same without knowing the counts, for blocks that repeat no stretch of transactions back to back and whose transactions all have inputs and a paid output |
| `Commitment.LongerThanPair` | include/caesar/transaction.hpp:137-158 | such a transaction encodes to more than 64 bytes, so its id is never the digest of two Merkle nodes |
| `Consensus.CountLeadingZeroBits` | include/caesar/consensus.hpp:95-113 | the byte and bit loops count the leading zero bits |
| `Consensus.LeadingZerosIsTarget` | include/caesar/consensus.hpp:95-125 | a digest has d leading zero bits exactly if it is below 2 to the power (bits - d) |
| `Consensus.PowIsTarget` | include/caesar/consensus.hpp:115-125 | a hash meets a difficulty exactly if that is at most 256 and the hash, as a number, is below 2 to the power (256 - difficulty) |
| `Consensus.MinePow` | include/caesar/consensus.hpp:127-149 | finds the first nonce in range whose hash is below the target, or every hash in range is not; the range ends where nonces do |
| `Consensus.AdjustDifficultyWindow` | include/caesar/consensus.hpp:181-221 | the sort, clamp and step loops compute the specified next difficulty |
| `Consensus.SortSorts` | include/caesar/consensus.hpp:181-188 | the median is taken of a sorted permutation of the intervals |
| `Consensus.AdjustIsRetarget` | include/caesar/consensus.hpp:190-221 | on a full window the loops amount to a table of five bands of the median |
| `Consensus.RetargetIgnoresOrder` | include/caesar/consensus.hpp:181-221 | the next difficulty does not depend on the order of the intervals |
| `Consensus.RetargetBounded` | include/caesar/consensus.hpp:190-221 | it moves by at most 2 and stays within 8 to 256 |
| `Consensus.MedianInMajorityBand` | include/caesar/consensus.hpp:181-188 | if six of eleven intervals lie in a band, so does the median, however extreme the others |
| `Consensus.MajorityPinsDifficulty` | include/caesar/consensus.hpp:181-221 | if six of eleven intervals lie strictly between 60 and 240, the difficulty is unchanged |
| `Coinbase.SubsidyIs` | include/caesar/coinbase.hpp:36-46 | the subsidy is 5000000000 divided by 2 to the power of the halvings, rounded down, and nothing at genesis |
| `Coinbase.EraMints` | include/caesar/coinbase.hpp:36-46 | n blocks of an era of 210000 mint n times the subsidy of that era |
| `Coinbase.MakeCoinbase` | include/caesar/coinbase.hpp:48-82 | a coinbase is made exactly for a non-zero height and a recipient; it passes coinbase validation, pays that recipient and carries the extra nonce |
| `Coinbase.MintedBelowSupply` | include/caesar/coinbase.hpp:19-46 | for every 64-bit height, all subsidies up to it leave room for a whole further initial subsidy under the cap |
| `Rules.ValidateTransaction` | include/caesar/transaction.hpp:256-280 | the summing loop accepts exactly the transactions with inputs, positive outputs, recipients and a 64-bit output sum |
| `Rules.HeaderPowIsTarget` | include/caesar/block.hpp:221-237 | a header meets its difficulty exactly if the hash of its zero-nonce form with its nonce is below the target |
| `Rules.ExpectedDifficultyAtPosition` | include/caesar/block.hpp:427-479 | the loops compute the expected difficulty, which NextDifficultyFixed and NextDifficultyMoves give in numbers |
| `Rules.OddChainKeepsDifficulty` | include/caesar/block.hpp:463-478 | a time that goes back, or a difficulty above 256, leaves the difficulty as it was |
| `Rules.DifficultyPrefixStable` | include/caesar/block.hpp:427-483 | the expected difficulty at a position depends only on the blocks before it |
| `Utxo.UTXOSet.Add` | include/caesar/utxo.hpp:38-40 | adds an output exactly if its outpoint is new |
| `Utxo.UTXOSet.Spend` | include/caesar/utxo.hpp:55-57 | removes an outpoint exactly if it is there |
| `Utxo.SumInputs` | include/caesar/mempool_validation.hpp:40-66 | the loop finds the first fault among the inputs in order, or the sum of their amounts |
| `Utxo.InputFault` | include/caesar/mempool_validation.hpp:40-66 | there is no fault exactly if the inputs are distinct, exist and sum to 64 bits |
| `Utxo.ValidateForMempool` | include/caesar/mempool_validation.hpp:35-89 | accepts exactly the transactions the unspent set can fund, and otherwise gives the first fault in the order of the checks |
| `Utxo.FirstFault` | include/caesar/mempool_validation.hpp:40-66 | the fault is that of the first bad input: named before, else missing, else past 64 bits |
| `Utxo.FundingReasonIs` | include/caesar/mempool_validation.hpp:35-89 | a malformed transaction, then a bad input, then too little value |
| `Utxo.ValidateTransactionWitness` | include/caesar/ownership.hpp:35-127 | accepts exactly the transactions that MaySpendIff describes |
| `Authorization.MaySpendIff` | include/caesar/ownership.hpp:20-127 | a transaction may spend exactly if it is well-formed, its inputs are different, exist and are worth its outputs, and each is signed by the key of the address of what it spends |
| `Authorization.MessageFixes` | include/caesar/transaction_signature.hpp:16-37 | equal signed messages are of the same transaction, apart from witnesses, and the same input |
| `Authorization.SpentWasSigned` | include/caesar/chain_validator.hpp:21-80 | whatever a block of a valid chain removes from the ledger, an ordinary transaction of it names with the key and signature of the owner |
| `Authorization.LeftWasSigned` | include/caesar/chain_validator.hpp:157-194 | the same over any stretch of a valid chain |
| `Authorization.EverySpendSigned` | include/caesar/chain_validator.hpp:21-80 | every input of every ordinary transaction of a valid chain is signed by the owner of what it spends at its turn, also within a block |
| `Utxo.WitnessLocal` | include/caesar/ownership.hpp:35-127 | acceptance depends only on the outputs spent |
| `Utxo.ApplyTxTotal` | include/caesar/chain_validator.hpp:21-80 | spending and creating changes the total unspent value by outputs less inputs |
| `Utxo.InputsWithinTotal` | include/caesar/utxo.hpp:67-101 | distinct inputs never sum to more than the whole set |
| `ChainValidator.ApplyBlockInPlace` | include/caesar/chain_validator.hpp:21-80 | applying a block in place succeeds and changes the set as the fold over its transactions does |
| `ChainValidator.AddCoinbaseIssuance` | include/caesar/chain_validator.hpp:137-155 | the running total grows by the coinbase outputs, or the cap is exceeded |
| `ChainValidator.PositionIsFollows` | include/caesar/chain_validator.hpp:114-135 | the position check against the whole chain is the check against the blocks before |
| `ChainValidator.ValidateAndRebuildChain` | include/caesar/chain_validator.hpp:157-194 | the loop accepts exactly the chains whose every prefix extends validly, and returns their ledger |
| `ChainValidator.RebuildPrefix` | include/caesar/chain_validator.hpp:157-194 | every prefix of a valid chain is valid |
| `ChainValidator.RebuildStep` | include/caesar/chain_validator.hpp:157-194 | the ledger of a longer prefix is the ledger of the shorter one extended by one block |
| `ChainValidator.ValidateBlockConsensus` | include/caesar/chain_validator.hpp:243-274 | the one-block check, with its own recount of issuance, decides the consensus predicate |
| `ChainFacts.HeightIsIndex` | include/caesar/chain_validator.hpp:101-135 | in every valid chain the height of a block is its index |
| `ChainFacts.ConsensusIffValid` | include/caesar/chain_validator.hpp:243-274 | on a valid chain the one-block check holds exactly if the longer chain is valid |
| `ChainFacts.ExtendsValid` | include/caesar/chain_validator.hpp:157-194 | rebuilding the longer chain is extending the ledger of the shorter one |
| `ChainFacts.ReissueAgrees` | include/caesar/chain_validator.hpp:222-235 | the recount of issuance agrees with the total carried by the rebuild |
| `ChainFacts.IssuedIsMinted` | include/caesar/chain_validator.hpp:137-194 | the amount issued is the sum of the subsidies of heights 1 to the tip |
| `ChainFacts.SupplyCapUnreachable` | include/caesar/chain_validator.hpp:137-155 | issuance stays strictly below the cap, and a block with a valid coinbase is never refused for it |
| `ChainFacts.DifficultyBounded` | include/caesar/block.hpp:427-479 | every block after genesis has a difficulty of 8 to 33, and exactly 8 from height 40 on |
| `Schedule.WorkProven` | include/caesar/block.hpp:317-376 | every mined block of every valid chain carries its work: the hash of its header is below 2 to the power (256 - difficulty) |
| `Schedule.NextDifficultyFixed` | include/caesar/block.hpp:427-483 | on top of any valid chain the next difficulty is 12 at heights 1 to 11, 13 at 19 to 29, and 8 from 40 on |
| `Schedule.NextDifficultyMoves` | include/caesar/block.hpp:427-483 | at the other heights it moves from the last one by the sixth of the eleven preceding time gaps in order of size, in five bands |
| `Schedule.DifficultyFixed` | include/caesar/block.hpp:427-479 | the same numbers for the blocks of any valid chain |
| `Schedule.DifficultyMoves` | include/caesar/block.hpp:427-479 | the same bands for its blocks: fast blocks raise the difficulty, slow ones lower it, but not below 8 |
| `Schedule.EraIssued` | include/caesar/chain_validator.hpp:137-194 | a valid chain issues 210000 times 5000000000 over 2 to the k in era k, and 209999 times 5000000000 in the first |
| `Schedule.FinalSupply` | include/caesar/chain_validator.hpp:137-194 | every valid chain of at least 6930000 blocks has issued exactly 2099994997690000 units |
| `ValidBlocks.AcceptedIff` | include/caesar/chain_validator.hpp:157-194 | a valid chain goes on with exactly the blocks whose header continues it, whose roots commit to their transactions, with a new coinbase of the scheduled amount, and whose other transactions apply in turn; neither supply cap nor height wrap plays a part |
| `ValidBlocks.GenesisIff` | include/caesar/block.hpp:317-345 | exactly the blocks that may start a chain; the ledger starts empty and no work is asked |
| `ChainFacts.Conservation` | include/caesar/chain_validator.hpp:21-80 | over every valid chain, unspent value plus burned fees equals the amount issued |
| `ChainFacts.BlockConserves` | include/caesar/chain_validator.hpp:21-80 | a block adds its subsidy to the unspent value and burns its fees |
| `ChainFacts.UnspentBelowSupply` | include/caesar/coinbase.hpp:19-46 | the unspent value of every valid chain stays a subsidy below the cap |
| `ChainFacts.InputOverflowUnreachable` | include/caesar/utxo.hpp:67-101 | while any block is applied to any valid chain, no sum of inputs comes near 64 bits |
| `Confirmed.LedgerIsConfirmAll` | include/caesar/chain_validator.hpp:157-194 | the ledger is the fold over the flat list of transactions after genesis |
| `Confirmed.UnspentClosedForm` | include/caesar/chain_validator.hpp:157-194 | with distinct ids the ledger is everything created less everything spent, whatever the order |
| `Confirmed.SharedIdIsCoinbase` | include/caesar/coinbase.hpp:99-119 | only a coinbase can repeat the id of a confirmed transaction |
| `Confirmed.IdsAreUnique` | include/caesar/coinbase.hpp:99-119 | distinct coinbases make all ids of a valid chain distinct, without a collision among the hashed encodings |
| `Pool.SomethingReady` | include/caesar/mempool.hpp:122-199 | in an orderly pool, whatever part was applied, some waiting transaction has all its inputs |
| `Pool.ReadyStep` | include/caesar/mempool.hpp:122-199 | applying any transaction that has its inputs passes the full consensus check and leads to the view of the larger part |
| `Pool.AcceptKeepsOrderly` | include/caesar/mempool.hpp:62-120 | admission keeps the pool orderly if the chain lacks the outputs the newcomer creates |
| `Pool.RemoveKeepsOrderly` | include/caesar/mempool.hpp:201-244 | removing a set closed under children keeps the pool orderly |
| `Sweep.SweptMoves` | include/caesar/mempool.hpp:147-196 | for any pool and any order of the sweep, the result is nothing or the whole pool, and it can be moved one by one |
| `Sweep.OrderlyIsSwept` | include/caesar/mempool.hpp:147-196 | on an orderly pool every order of the sweep finds a complete valid order |
| `Mempool.SortIds` | include/caesar/mempool.hpp:131-132 | the ids in ascending order, each once |
| `Mempool.SweepOnce` | include/caesar/mempool.hpp:150-190 | one pass of the loop takes what has its inputs, in order, or gives up where an output is there already |
| `Mempool.Mempool.OrderedTransactions` | include/caesar/mempool.hpp:122-199 | the sweeps in ascending order of ids, for any pool: nothing or the whole pool, moved one by one; on an orderly pool each passes the consensus check at its turn |
| `Mempool.Mempool.BuildEffectiveUtxo` | include/caesar/mempool.hpp:261-290 | for any pool, the set that moving the swept pool leads to, or a failure; on an orderly pool it never fails, and gives the chain and pool outputs less the pool inputs |
| `Mempool.OrderlyIsBuilt` | include/caesar/mempool.hpp:261-290 | on an orderly pool the built set does not depend on the order of the ids |
| `Mempool.Mempool.Accept` | include/caesar/mempool.hpp:62-120 | for any pool the answer is the first fault in the order of the checks; on an orderly pool it admits exactly the admissible transactions; reserved inputs and byte count stay exact |
| `Mempool.OrderlyAdmits` | include/caesar/mempool.hpp:62-120 | on an orderly pool a transaction is admitted exactly if it is admissible |
| `Mempool.AnswerIs` | include/caesar/mempool.hpp:62-120 | which answer each case gets, with the limits of 5000 transactions, 1000000 bytes and 16777216 bytes |
| `Mempool.StuckAdmitsNothing` | include/caesar/mempool.hpp:84-118 | a pool whose sweeps find no order admits nothing |
| `Mempool.Mempool.Remove` | include/caesar/mempool.hpp:201-244 | removes exactly the transaction and its descendants; the byte count never underflows |
| `Mempool.Mempool.Clear` | include/caesar/mempool.hpp:246-250 | empties the pool, its reservations and its byte count |
| `Mempool.Descendants` | include/caesar/mempool.hpp:201-230 | the fixpoint loop finds the least set with the root that is closed under children |
| `Sweep.StuckIsDisorderly` | include/caesar/mempool.hpp:192-193 | a sweep that takes nothing proves the pool is not orderly |
| `PoolRuns.EveryPoolOrderly` | include/caesar/mempool.hpp:62-290 | every pool of every run of accept, remove and clear over a valid chain with distinct coinbases is orderly and holds nothing confirmed |
| `PoolRuns.AdmittedIsUnconfirmed` | include/caesar/mempool.hpp:62-120 | a confirmed transaction is never admitted again |
| `PoolRuns.OrderExists` | include/caesar/mempool.hpp:122-199 | an orderly pool has a complete valid order |
| `PoolRuns.OrderableIffFresh` | include/caesar/mempool.hpp:62-120 | after any admission some order of the pool exists exactly if no output with the newcomer id is unspent on the chain and left unspent by the pool |
| `SweepRuns.AlwaysSweptIffFresh` | include/caesar/mempool.hpp:62-199 | after any admission to an orderly pool over any valid chain, every order of the sweep still succeeds exactly if the chain has no unspent output with the newcomer id |
| `SweepRuns.SomeSweepGivesUp` | include/caesar/mempool.hpp:147-187 | if it has one, the others without the heirs of the newcomer, and then the newcomer, make the sweep give up |
| `SweepRuns.SpendsNoHeir` | include/caesar/mempool.hpp:62-120 | a transaction that was confirmed before spends nothing that descends from it |
| `SweepRuns.SweepByIdMisses` | include/caesar/mempool.hpp:131-187 | an order can exist that the sweep by id misses: with a child of the output on the chain in the pool, it is found exactly if the id of the child is the lesser one |
| `PoolRuns.AdmittedButStuck` | include/caesar/mempool.hpp:62-120 | the condition fails on valid chains: after a block that confirms a transaction and one that repeats the coinbase it spent, the transaction is admitted and no order of the pool exists any more |
| `Reorg.RevalidateAfterReorg` | include/caesar/mempool_reorg.hpp:49-122 | nothing is added; and if the new chain has no unspent output of an old entry that it could fund again, the pool fits the new chain and a transaction was kept exactly if the chain and the kept ones fund it |
| `Reorg.DistinctIdsMeetIt` | include/caesar/mempool_reorg.hpp:49-122 | chains with distinct ids meet that condition for any pool |
| `Reorg.RetainedUnique` | include/caesar/mempool_reorg.hpp:49-122 | there is only one such set, so the iteration order makes no difference |
| `Reorg.RetainedGreatest` | include/caesar/mempool_reorg.hpp:49-122 | every part of the old pool that can be applied in some order was kept |
| `Reorg.RetainedIsGreatest` | include/caesar/mempool_reorg.hpp:49-122 | the kept set is the greatest part of the old pool that can be applied to the new chain in some order |
| `Reorg.NeverStuck` | include/caesar/mempool_reorg.hpp:70-122 | while transactions are pending, one of them waits for no other pending one, so the pending set drains |
| `Reorg.AdmissibleIffFunded` | include/caesar/mempool_reorg.hpp:49-122 | while the pool is refilled no capacity or double-spend check fires: admission depends on funding alone |
| `Reorg.FittingPoolAcyclic` | include/caesar/mempool_reorg.hpp:49-122 | every pool that fits its chain has no cycle of spending, as the revalidation needs |
| `BlockBuilder.BuiltCoinbasesDiffer` | include/caesar/block_builder.hpp:16-57 | coinbases built for different heights never share an id, without a collision |
| `BlockBuilder.Build` | include/caesar/block_builder.hpp:16-57 | the built block is a coinbase and what the sweeps find, under the roots of exactly that list; on an orderly pool a complete valid order |
| `BlockBuilder.Mine` | include/caesar/block_builder.hpp:59-78 | changes the nonce only, to one that satisfies the proof of work, or there is none in range |
| `Provenance.RootedAgree` | include/caesar/utxo.hpp:36-65 | an outpoint has one output in all unspent sets whose outputs come from transactions without a collision |
| `Provenance.LedgerRooted` | include/caesar/chain_validator.hpp:157-194 | the unspent outputs of any chain are ones its transactions create, even if coinbases repeat |
| `Provenance.FundedAgain` | include/caesar/ownership.hpp:35-127 | a transaction that once passed validation passes wherever its inputs are |
| `Provenance.SweptApplies` | include/caesar/mempool.hpp:147-196 | what the sweeps return from a pool of once-admitted transactions passes every check, whether the pool fits the chain or not |
| `Provenance.AcceptVouches` | include/caesar/mempool.hpp:62-120 | admission, by any chain and pool, leaves a pool of once-admitted transactions |
| `BlockBuilder.MinedBlockAccepted` | include/caesar/node.hpp:409-481 | over every valid chain and every pool of once-admitted transactions, fitting or not, a built and mined block passes the consensus check exactly if its coinbase id is new |
| `BlockBuilder.BuiltBlockAccepted` | include/caesar/chain_validator.hpp:243-274 | the same for any list of transactions that applies to the chain |
| `BlockBuilder.BuiltBlockApplies` | include/caesar/block_builder.hpp:16-57 | its transactions apply after the coinbase exactly if the coinbase is new |
| `Genesis.GenesisIsValid` | include/caesar/network_params.hpp:62-79 | the canonical genesis is a valid chain whatever the proof-of-work hash, with an empty ledger and nothing issued |
| `Genesis.NetworksDiffer` | include/caesar/network_params.hpp:86-121 | different burn addresses give different genesis hashes |
| `Genesis.ValidChainsGrow` | include/caesar/block_builder.hpp:16-78 | every valid chain grows by every nonce that meets the expected difficulty, if the coinbase id is new |
| `ChainWork.ChainWork.PowerOfTwo` | include/caesar/chain_work.hpp:29-36 | the limbs hold the power of two; throws exactly from exponent 512 on |
| `ChainWork.ChainWork.Add` | include/caesar/chain_work.hpp:38-59 | eight limbs with two carries add like integers, and it throws exactly if the sum reaches 2 to the 512 |
| `ChainWork.ChainWork.Less` | include/caesar/chain_work.hpp:74-83 | comparing limbs from the top compares the numbers |
| `ChainWork.CumulativeChainWork` | include/caesar/chain_work.hpp:101-118 | the sum of 2 to the difficulty; throws exactly on an empty chain, a difficulty over 256 or overflow |
| `ChainWork.ValidWorkFits` | include/caesar/chain_work.hpp:108-118 | no valid chain overflows 512 bits |
| `ChainWork.MoreWorkIffLonger` | include/caesar/chain_work.hpp:120-128 | for valid chains with the same first 40 blocks, more work is more blocks |
| `ChainWork.WorkBeyondFixed` | include/caesar/chain_work.hpp:101-118 | from height 40 on every block adds exactly 256 |
| `Replacement.Assemble` | include/caesar/chain_replacement.hpp:24-78 | the loop returns the local prefix and the blocks exactly if each block matches its header and links to the one before |
| `Replacement.AssembledIff` | include/caesar/chain_replacement.hpp:24-78 | the candidate is made exactly if each block has the hash of its header and names the block before it and the next height |
| `Replacement.CompareWork` | include/caesar/chain_work.hpp:120-128 | compares the exact work, and throws exactly if it has to count work that is empty, over difficulty 256 or over 512 bits |
| `Replacement.Prepare` | include/caesar/chain_replacement.hpp:82-109 | for any current chain, a plan with the ledger of the candidate exists exactly if the candidate is valid, has the same genesis hash and more work, and the work of the current chain can be counted |
| `Repetition.NoStretchTwice` | include/caesar/chain_validator.hpp:21-80 | no stretch of ordinary transactions is ever confirmed twice in a row, even if coinbases repeat: every input of the second copy would have to come from the stretch itself |
| `Repetition.StretchFeedsItself` | include/caesar/chain_validator.hpp:21-80 | every input of a repeated stretch is created inside it |
| `Repetition.NothingFeedsItself` | include/caesar/chain_validator.hpp:21-80 | ids that always have an input from among them are never confirmed |
| `ChainAgreement.BlockUnrepeated` | include/caesar/block.hpp:317-382 | no block of a valid chain repeats a stretch of transactions back to back |
| `ChainAgreement.BlocksEqual` | include/caesar/block.hpp:28-121 | two valid chains that share a block hash at an index share the block, witnesses included, and the hash before it |
| `ChainAgreement.SharedPrefix` | include/caesar/chain_validator.hpp:114-194 | two valid chains with one genesis that share a block hash at an index are equal up to it, without a collision |
| `ChainAgreement.SharedIndex` | include/caesar/chain_validator.hpp:114-194 | a block hash shared by two valid chains is at one index in both |
| `Relay.HandleBlocks` | include/caesar/p2p_relay.hpp:1476-1551 | the pass that carries ledger and total along ends with the chain that full validation of each longer chain would give, and that chain is valid |
| `ChainValidator.RecountIssuance` | include/caesar/p2p_relay.hpp:1497-1503 | the recount of the stored chain is the specified total |
| `Relay.TryExtend` | include/caesar/p2p_relay.hpp:1512-1543 | a block is taken exactly if it extends the ledger; a refused one leaves the running ledger alone |
| `Relay.AbsorbGrows` | include/caesar/p2p_relay.hpp:1510-1551 | a batch keeps the chain valid, drops nothing, and adds work whenever it adds a block |
| `Relay.AbsorbConcat` | include/caesar/p2p_relay.hpp:1447-1551 | splitting a batch makes no difference |
| `Relay.AbsorbAll` | include/caesar/p2p_relay.hpp:1510-1551 | blocks that continue the chain to a valid one are all taken |
| `Locators.BuildLocators` | include/caesar/p2p_relay.hpp:351-387 | ten single steps back, then doubling ones, to genesis or 32 entries |
| `Locators.LocatorsReachGenesis` | include/caesar/p2p_relay.hpp:351-387 | the locators reach genesis exactly if the tip index is at most 2 to the 22 plus 8 |
| `Locators.CollectHeaders` | include/caesar/p2p_relay.hpp:1040-1075 | the headers from a position on, at most 2000 |
| `Locators.HandleGetHeaders` | include/caesar/p2p_relay.hpp:982-1103 | answers with the headers after the first known locator, at most 2000 |
| `Locators.ReplyIs` | include/caesar/p2p_relay.hpp:982-1103 | the reply goes on from the first locator in the list that the chain has, with up to 2000 headers |
| `Locators.IndexByHash` | include/caesar/p2p_relay.hpp:1151-1153 | the index maps each hash of the chain to its first position |
| `Locators.HandleGetBlocks` | include/caesar/p2p_relay.hpp:1105-1189 | answers with the known blocks in the order asked |
| `Locators.HandleGetSyncBlocks` | include/caesar/p2p_relay.hpp:1191-1266 | answers with all requested blocks, or aborts if one is missing |
| `Locators.ServedIff` | include/caesar/p2p_relay.hpp:1191-1266 | every requested block in the order asked, or an abort exactly if one is unknown |
| `Locators.ServedExactly` | include/caesar/p2p_relay.hpp:1105-1266 | asking for blocks of the chain by hash gives exactly those blocks, if no two share a hash |
| `Sessions.CheckLinks` | include/caesar/p2p_relay.hpp:724-775 | accepts exactly the headers that link from the given hash and height, and collects their hashes |
| `Sessions.SyncTable.HandleHeaders` | include/caesar/p2p_relay.hpp:657-827 | headers are classified as direct extension, fork or refused; only a fork opens a session, and never over an existing one |
| `Sessions.ClassifiedIff` | include/caesar/p2p_relay.hpp:657-827 | an announcement is followed exactly if it has at most 2000 headers that carry their work and are linked, from the tip at the next height or from another block of the chain |
| `Sessions.SyncTable.HandleSyncBlocks` | include/caesar/p2p_relay.hpp:1317-1389 | stale and foreign frames change nothing, an empty one closes its session, others fill slots up to the first bad block |
| `Sessions.SyncTable.CloseSession` | include/caesar/p2p_relay.hpp:1392-1400 | removes exactly the session that completed |
| `Sessions.StepSafe` | include/caesar/p2p_relay.hpp:780-820 | every event keeps every received block equal in hash to its header; sessions are continued or removed, never replaced, and only by their own peer |
| `Sessions.StaleIgnored` | include/caesar/p2p_relay.hpp:1317-1345 | frames for another session than the open one change nothing; an empty frame removes the one it names |
| `Sessions.SessionHasOneOrigin` | include/caesar/p2p_relay.hpp:780-820 | over every sequence of events, a session goes back to one fork announcement and was never replaced since |
| `Sessions.ReceiveKeeps` | include/caesar/p2p_relay.hpp:1352-1378 | no received block is lost or replaced, and each matches its header |
| `Sessions.CompletedAssembles` | include/caesar/p2p_relay.hpp:1402-1421 | a completed session yields a candidate exactly if its ancestor is on the local chain and the first height is one above it; the candidate is local prefix plus requested blocks |
| `SyncRound.MeetingPoint` | include/caesar/p2p_relay.hpp:982-1060 | the responder recognises a locator, at one index in both chains, and the chains agree up to it |
| `SyncRound.ReplyClassified` | include/caesar/p2p_relay.hpp:717-777 | the headers of an honest reply are accepted, as direct extension exactly if the chains meet at the local tip |
| `SyncRound.DirectSyncAbsorbs` | include/caesar/p2p_relay.hpp:584-603 | asking in batches of 1024 makes no difference to what is absorbed |
| `SyncRound.FramesFill` | include/caesar/p2p_relay.hpp:1268-1315 | however the answer is split into frames, an honest session ends complete |
| `SyncRound.EveryBatchServed` | include/caesar/p2p_relay.hpp:1191-1266 | a valid chain serves every stretch of its own blocks in full |
| `SyncRound.AnswerCarriesChain` | include/caesar/p2p_relay.hpp:323-349 | what the responder sends for the requested hashes, batch by batch from its own chain, carries exactly the blocks behind them |
| `SyncRound.StretchAssembles` | include/caesar/chain_replacement.hpp:24-78 | the blocks of a longer chain past the meeting point assemble to that chain |
| `SyncRound.RoundStarts` | include/caesar/p2p_relay.hpp:657-827 | a responder with more work always sends headers, and they are accepted |
| `SyncRound.DirectRoundConverges` | include/caesar/p2p_relay.hpp:1447-1551 | a direct round ends with the chain of the responder, up to the last header sent |
| `SyncRound.ForkRoundConverges` | include/caesar/p2p_relay.hpp:1317-1445 | a fork round answered from the chain of the responder, in frames in order and within the decoder caps, assembles that chain up to the last header sent, and replaces exactly if that is more work |
| `NodeSync.SyncOnce` | include/caesar/p2p_relay.hpp:351-387 | one honest round between two files that load: the file of the requester ends as the save of the chain of the responder up to the last header sent, unless that forks off without more work; with at most 2000 blocks past the meeting point the files are the same |
| `NodeSync.SyncDirect` | include/caesar/p2p_relay.hpp:1447-1551 | a direct extension, batch by batch through the chain file |
| `NodeSync.SyncFork` | include/caesar/p2p_relay.hpp:1317-1445 | a fork, through session, assembly and replacement of the chain file |
| `SyncRound.RoundResult` | include/caesar/p2p_relay.hpp:657-827 | one honest round, however far the responder is ahead: the requester ends with the chain of the responder up to the last header sent, unless that forks off without more work |
| `SyncRound.OneRoundConverges` | include/caesar/p2p_relay.hpp:351-387 | one honest round ends with exactly the chain of the responder, for any two valid chains without a collision: one genesis, tip within locator reach, more work, at most 2000 blocks past the meeting point, answers served from the chain of the responder, blocks within the decoder caps, frames in order |
| `Storage.FileInverse` | include/caesar/blockchain_storage.hpp:199-240 | a file that loads is the exact encoding of the chain it loads to |
| `Storage.FileRoundTrip` | include/caesar/blockchain_storage.hpp:354-453 | a chain within the limits loads back |
| `Storage.LoadAfterSave` | include/caesar/blockchain_storage.hpp:115-240 | a saved chain loads back exactly if it has at most ten million blocks and all are within the decoder caps, and otherwise nothing loads; saving checks neither |
| `Limits.SavedButUnloadable` | include/caesar/blockchain_storage.hpp:115-240 | a valid chain that is saved and does not load: a genesis whose burn address exceeds a million bytes |
| `Limits.MinedButUnloadable` | include/caesar/node.hpp:391-493 | on every savable chain, mining for an address of more than a million bytes gives a block that is accepted and stored, and then nothing loads |
| `Limits.StorableNotDecodable` | include/caesar/block.hpp:177-219 | such a block fits the file and not the decoder |
| `Storage.SavedChainUnique` | include/caesar/blockchain_storage.hpp:115-189 | a file is the save of at most one chain |
| `Storage.WriteFile` | include/caesar/blockchain_storage.hpp:128-150 | the writing loop produces the file encoding, and throws exactly if a block is too large |
| `Storage.ReadFile` | include/caesar/blockchain_storage.hpp:199-226 | the reading loop and validation together decide what loads |
| `Storage.BlockchainStorage.Save` | include/caesar/blockchain_storage.hpp:115-189 | accepts exactly valid chains of storable blocks, and leaves the file alone otherwise |
| `Storage.BlockchainStorage.Load` | include/caesar/blockchain_storage.hpp:199-240 | returns the stored chain, or fails |
| `Storage.BlockchainStorage.Append` | include/caesar/blockchain_storage.hpp:242-344 | stores a block exactly if the longer chain is valid and storable, in the short-chain branch as in the other, and on an absent file |
| `Storage.AppendKeepsLoadable` | include/caesar/blockchain_storage.hpp:242-344 | after an append the file still loads exactly if there was room and the block is within the caps |
| `Node.Node.Chain` | include/caesar/node.hpp:178-185 | readers see the stored chain unless a relayed batch still owes its cache invalidation |
| `Node.Node.InvalidateCache` | include/caesar/node.hpp:64-67 | pays one owed invalidation |
| `Node.Node.ReplaceChain` | include/caesar/node.hpp:209-239 | commits exactly a candidate that is valid, shares the genesis hash and has more work than the chain stored now, and refits the pool, to which nothing is added |
| `Node.Node.AcceptTransaction` | include/caesar/node.hpp:277-311 | refuses a coinbase as invalid, gives any other transaction the exact answer of the pool over the stored chain, fitting or not, and keeps the pool one of once-admitted transactions |
| `Node.PartVouched` | include/caesar/node.hpp:231-236 | a part of a pool of once-admitted transactions is one |
| `Node.Node.BuildCandidate` | include/caesar/node.hpp:409-449 | a candidate exists exactly if the chain loads and a coinbase can be made; it is on top of the stored chain, over what the sweeps find |
| `Node.Node.CommitBlock` | include/caesar/node.hpp:555-655 | any candidate is stored exactly if it makes the chain stored now a longer valid one; the pool is emptied then and untouched otherwise |
| `Node.Node.RelayBlocks` | include/caesar/p2p_relay.hpp:1476-1571 | a relayed batch stores the absorbed chain, leaves the pool alone and owes one cache invalidation |
| `Node.Node.MineUndisturbed` | include/caesar/node.hpp:391-493 | mining without interference is never stale, and for any pool of once-admitted transactions validation refuses the block exactly if its coinbase id is not new |
| `Node.EveryRunAdvances` | include/caesar/node.hpp:209-655 | over every interleaving, each stored file is the save of one valid chain with the first genesis hash, and each change adds work |
| `Node.NextSaved` | include/caesar/node.hpp:209-655 | one critical section keeps the file or moves it to a chain with more work |
| `Wallet.CollectMyUtxos` | include/caesar/http_rpc.hpp:1002-1064 | the scan returns what all transactions pay the address less what any of them names as input, and nothing without an address |
| `Wallet.Scan.Process` | include/caesar/http_rpc.hpp:1014-1042 | one pass adds the inputs named and the outputs received |
| `Wallet.ScanIsLedger` | include/caesar/http_rpc.hpp:1002-1064 | the order-blind scan gives the ledger with the pool applied and the genesis outputs, less what genesis names as inputs, filtered by address, for every valid chain with distinct ids |
| `Wallet.WalletExactIff` | include/caesar/http_rpc.hpp:1002-1064 | the wallet agrees with the ledger on an address exactly if genesis leaves nothing paid to it and names none of its outputs |
| `Wallet.WalletExactFromCanonical` | include/caesar/http_rpc.hpp:1002-1064 | on every chain from the canonical genesis the wallet agrees with the ledger on an address exactly if it is not the burn address |
| `Wallet.CanonicalApart` | include/caesar/network_params.hpp:62-79 | no confirmed or pooled transaction shares the id of the burn transaction, without a collision |
| `Wallet.CreatedLessNamed` | include/caesar/http_rpc.hpp:1002-1064 | created less named is the genesis outputs and the effective ledger, less what genesis names |
| `Payout.ShareBook.Submit` | include/caesar/http_rpc.hpp:7086-7159 | a share of the current job is credited exactly once, and the books stay balanced |
| `Payout.ShareBook.Mark` | include/caesar/http_rpc.hpp:7104-7118 | a share is new exactly if it was not credited before |
| `Payout.ShareBook.CreditShare` | include/caesar/http_rpc.hpp:7120-7159 | one share for the worker, and one for the owner at every fourth share of others |
| `Payout.ShareBook.Register` | include/caesar/http_rpc.hpp:6700-6722 | adds a worker with no shares and changes nothing else |
| `Payout.ShareBook.TakeSnapshot` | include/caesar/http_rpc.hpp:679-706 | lists exactly the pending shares of every worker, and their total |
| `Payout.ShareBook.Settle` | include/caesar/http_rpc.hpp:820-860 | after any credits in between, moves exactly the snapshot from pending to settled; the violation branch is never taken |
| `Payout.OneMoreKeeps` | include/caesar/http_rpc.hpp:7120-7159 | a credit keeps credited equal to settled plus pending, and every claim covered |
| `Payout.SettleKeeps` | include/caesar/http_rpc.hpp:840-856 | settling a claim keeps credited equal to settled plus pending |
| `Payout.ApportionmentBounds` | include/caesar/http_rpc.hpp:740-762 | the floored parts never exceed the worker pool, even if a product wraps, and fall short by fewer units than workers if none does |
| `Payout.Apportion` | include/caesar/http_rpc.hpp:744-762 | each address gets its shares of the pot, rounded down, with the product in 64 bits; no other address gets anything |
| `Payout.PaymentsPayShares` | include/caesar/http_rpc.hpp:744-762 | the same of the specified payments |
| `Payout.Gather` | include/caesar/http_rpc.hpp:766-782 | takes the fewest outputs in order that cover the target, all of them if they never do |
| `Payout.Fund` | include/caesar/http_rpc.hpp:766-800 | inputs and change that balance the payments, refused exactly if the balance is below them |
| `Payout.PlanPayout` | include/caesar/http_rpc.hpp:722-800 | the transaction is exactly balanced, pays each worker its shares of balance less 1000 less fee, and returns the rest to the pool; each refusal has its exact condition |
| `Payout.FeeWithinSuffices` | include/caesar/http_rpc.hpp:730-790 | if the fee is at most the distributable amount the outputs always suffice |
| `Payout.ShortIff` | include/caesar/http_rpc.hpp:730-790 | for every snapshot whose shares times the fee fit in 64 bits, the outputs fall short exactly if the fee is more than there is to distribute |
| `Payout.OneWorkerShortIff` | include/caesar/http_rpc.hpp:730-790 | the fit matters: with one worker and a fee that overshoots by little, they fall short exactly if the fee is too large and the shares times the fee fit |
| `Payout.WrappedPart` | include/caesar/http_rpc.hpp:740-762 | if the fee is too large, the wrapped subtraction makes every part exceed the whole balance |

## Left out

- OpenSSL hashing, Ed25519, PBKDF2, AES, the memory-hard mixing of the proof-of-work hash, SLIP-10 and BIP-39: opaque
  functions or independent of the ledger.
- Sockets, peer scoring, rate limits, time-outs and real time: message sequences and the clock value are arguments.
- HTTP routes, pages, e-mail, wallet files and the text file of the pool state: input and output only.
- File system failures: a save is one atomic step.
- The framing of P2P messages (GetSyncBlocks, SyncBlocks, Headers): sessions receive parsed messages, whose blocks are still
  bytes. Splitting an answer into frames below the payload limit is left open: the theorems hold for every split.
- request_sync_from_peer with its halving locators, and the timestamp helper that validation does not use: weaker than what is
  modelled, or not wired in.
- The human-readable serialisation of transactions: not used by any hash.
- Node.Node.BuildCandidate: takes chain and mempool in one critical section, as mine_one_block does; build_pool_candidate reads the mempool after releasing the chain lock. CommitBlock accepts any candidate, so safety does not depend on it.
- Node.Node.AcceptTransaction: does not model the announcement to peers after the locks are released, because it changes no state of the node.
- Payout.ShareBook.Submit: counters are unbounded, because they would need 2^64 credited shares to wrap; the share's own proof of work is checked before this critical section.
- Payout.PlanPayout: takes the fee as an arbitrary 64-bit amount, because the source computes it in floating point, and leaves signing and submission out.
- Reorg.RevalidateAfterReorg: if the new chain has an unspent output of an old entry that it could fund again, states only that nothing is added, because what is kept then depends on the order in which the map is walked.
- Sessions.SyncTable.HandleHeaders: takes the fresh session id as an argument, because the source draws it at random.
