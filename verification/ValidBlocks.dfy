/** Exactly which blocks a valid chain accepts, and which blocks may start one, in terms of their fields
    (block.hpp, chain_validator.hpp). */
module ValidBlocks {
  import opened Types
  import opened TransactionCodec
  import opened BlockCodec
  import opened Merkle
  import opened Consensus
  import opened Coinbase
  import opened Rules
  import opened Utxo
  import opened ChainValidator
  import opened ChainFacts
  import opened BlockBuilder

  /** The single null input that makes a transaction a coinbase. */
  const NULL_INPUT := OutPoint(Zeros(32), 0xFFFF_FFFF)

  /** The header is of the next block and carries its work. */
  ghost predicate HeaderContinues(chain: seq<Block>, h: BlockHeader)
    requires chain != []
  {
    var tip := chain[|chain| - 1].header;
    && h.version != 0 && h.height == |chain| && h.previousHash == Sha256(EncodeHeader(tip))
    && tip.timestamp <= h.timestamp && h.difficulty == ExpectedDifficulty(chain, |chain|) <= 256
    && BigEndian(PowHash(EncodeHeader(h.(nonce := 0)), h.nonce)) < Pow2(256 - h.difficulty)
  }

  /** The header commits to the transactions with and without their witnesses. */
  ghost predicate Commits(b: Block) {
    && (exists ids: seq<Hash256> ::
          && |ids| == |b.transactions|
          && (forall j :: 0 <= j < |ids| ==> ids[j] == Sha256(PutBase(b.transactions[j], [])))
          && b.header.merkleRoot == MerkleRoot(ids))
    && (exists ids: seq<Hash256> ::
          && |ids| == |b.transactions|
          && (forall j :: 0 <= j < |ids| ==> ids[j] == Sha256(PutFull(b.transactions[j], [])))
          && b.header.witnessRoot == MerkleRoot(ids))
  }

  /** A coinbase pays exactly the scheduled subsidy, in one output, to somebody. */
  ghost predicate PaysSubsidy(coinbase: Transaction, height: nat) {
    && coinbase.inputs == [NULL_INPUT] && |coinbase.outputs| == 1 && coinbase.outputs[0].recipient != []
    && coinbase.outputs[0].amount ==
         if 0 < height < 64 * 210_000 then 5_000_000_000 / Pow2(height / 210_000) else 0
  }

  lemma {:induction false} CommitsIff(b: Block)
    ensures RootsOk(b) <==> Commits(b)
  {
    hide MerkleRoot, PutBase, PutFull;
    var txs := b.transactions;
    if Commits(b) {
      var ids: seq<Hash256> :| |ids| == |txs| && (forall j :: 0 <= j < |ids| ==> ids[j] == Sha256(PutBase(txs[j], [])))
        && b.header.merkleRoot == MerkleRoot(ids);
      assert ids == Txids(txs);
      var wids: seq<Hash256> :| |wids| == |txs|
        && (forall j :: 0 <= j < |wids| ==> wids[j] == Sha256(PutFull(txs[j], [])))
        && b.header.witnessRoot == MerkleRoot(wids);
      assert wids == Wtxids(txs);
    }
    if RootsOk(b) {
      var ids, wids := Txids(txs), Wtxids(txs);
      assert |ids| == |txs| && forall j :: 0 <= j < |ids| ==> ids[j] == Sha256(PutBase(txs[j], []));
      assert |wids| == |txs| && forall j :: 0 <= j < |wids| ==> wids[j] == Sha256(PutFull(txs[j], []));
    }
  }

  lemma {:induction false} PaysSubsidyIff(coinbase: Transaction, height: u64)
    ensures CoinbaseOk(coinbase, height) <==> height != 0 && PaysSubsidy(coinbase, height)
  {
    SubsidyIs(height);
    if IsCoinbase(coinbase) {
      assert coinbase.inputs == [coinbase.inputs[0]];
    }
  }

  /** A valid chain goes on with exactly the blocks whose header continues it, with a proper new coinbase, and whose
      other transactions may each spend at their turn. Neither the supply cap nor the wrap of heights plays a part. */
  lemma {:induction false} AcceptedIff(chain: seq<Block>, b: Block)
    requires Valid(chain) && chain != []
    ensures Valid(chain + [b]) <==>
      && HeaderContinues(chain, b.header) && Commits(b)
      && b.transactions != [] && PaysSubsidy(b.transactions[0], |chain|)
      && (forall o :: o in Rebuild(chain).value.utxo && o.index == 0 ==>
            o.txid != Sha256(PutBase(b.transactions[0], [])))
      && ApplyTxs(Rebuild(chain).value.utxo + Created(b.transactions[0]), b.transactions[1..]).Some?
  {
    hide Rebuild, Issue, ApplyTxs, RootsOk, Commits, HeaderPowOk, EncodeHeader, CoinbaseOk, PaysSubsidy, PutBase,
      BigEndian, Pow2, ExpectedDifficulty, TxValid, IsCoinbase;
    ExtendsValid(chain, b);
    TipHeight(chain);
    HeaderPowIsTarget(b.header);
    CommitsIff(b);
    SupplyCapUnreachable(chain, b);
    if b.transactions != [] {
      var coinbase, rest := b.transactions[0], b.transactions[1..];
      PaysSubsidyIff(coinbase, b.header.height);
      var start := Rebuild(chain).value.utxo + Created(coinbase);
      if ApplyTxs(start, rest).Some? {
        AppliedAreOrdinary(start, rest);
        assert forall i :: 1 <= i < |b.transactions| ==> b.transactions[i] == rest[i - 1];
      }
    }
  }

  /** A transaction that may stand in a genesis block: one unit to somebody out of nothing, or an ordinary one. */
  ghost predicate MayStandInGenesis(tx: Transaction) {
    && tx.inputs != [NULL_INPUT]
    && (tx.inputs == [] ==>
          |tx.outputs| == 1 && tx.outputs[0].amount == 1 && tx.outputs[0].recipient != [] && tx.witnesses == [])
    && (tx.inputs != [] ==>
          && tx.version != 0 && tx.outputs != [] && SumAmounts(tx.outputs) <= MAX_U64
          && forall o :: o in tx.outputs ==> o.amount > 0 && o.recipient != [])
  }

  /** Exactly the blocks that may start a chain; whatever they hold, the ledger starts empty. No work is asked of them:
      every hash is below the target of difficulty zero. */
  lemma {:induction false} GenesisIff(b: Block)
    ensures Valid([b]) <==>
      && b.header.version != 0 && b.header.height == 0 && b.header.difficulty == 0
      && b.header.previousHash == Zeros(32) && Commits(b)
      && b.transactions != [] && forall tx :: tx in b.transactions ==> MayStandInGenesis(tx)
    ensures Valid([b]) ==> Rebuild([b]).value.utxo == map[] && Rebuild([b]).value.issued == 0
  {
    hide RootsOk, Commits, HeaderPowOk, EncodeHeader, SumAmounts, BigEndian, Pow2, Zeros;
    CommitsIff(b);
    HeaderPowIsTarget(b.header);
    BigEndianBound(PowHash(EncodeHeader(b.header.(nonce := 0)), b.header.nonce));
    forall tx | tx in b.transactions ensures GenesisTxOk(tx) <==> MayStandInGenesis(tx) {
      if IsCoinbase(tx) {
        assert tx.inputs == [tx.inputs[0]];
      }
    }
  }
}
