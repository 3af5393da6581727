/** The canonical genesis block (network_params.hpp), and how valid chains grow from it. */
module Genesis {
  import opened Types
  import opened TransactionCodec
  import opened BlockCodec
  import opened Merkle
  import opened Consensus
  import opened Rules
  import opened Utxo
  import opened ChainValidator
  import opened ChainFacts
  import opened BlockBuilder
  import opened Commitment

  /** The only transaction: one unit to an address nobody can spend from. */
  function BurnTransaction(recipient: Blob): Transaction {
    Transaction(1, [], [], [TxOutput(1, recipient)], [])
  }

  function CanonicalGenesis(recipient: Blob): Block {
    var txs := [BurnTransaction(recipient)];
    Block(BlockHeader(1, 0, ZERO_HASH, MerkleRoot(Txids(txs)), MerkleRoot(Wtxids(txs)), 0, 0, 0), txs)
  }

  /** Genesis is a valid chain by itself, whatever the proof-of-work hash, and its ledger is empty. */
  lemma {:induction false} GenesisIsValid(recipient: Blob)
    requires recipient != []
    ensures Rebuild([CanonicalGenesis(recipient)]) == Some(LedgerState(map[], 0))
    ensures var g := CanonicalGenesis(recipient);
      && g.header.version == 1 && g.header.timestamp == 0 && g.header.nonce == 0
      && |g.transactions| == 1 && g.transactions[0] == Transaction(1, [], [], [TxOutput(1, recipient)], [])
  {
    hide MerkleRoot, Txid, Wtxid, EncodeHeader;
    var g := CanonicalGenesis(recipient);
    NoDifficulty(g.header);
    assert GenesisOk(g) by {
      assert GenesisTxOk(BurnTransaction(recipient));
    }
  }

  lemma {:induction false} NoDifficulty(h: BlockHeader)
    requires h.difficulty == 0
    ensures HeaderPowOk(h)
  {
    hide LeadingZeroBits, EncodeHeader;
  }

  /** Networks with different burn addresses have different genesis hashes. */
  lemma {:induction false} NetworksDiffer(a: Blob, b: Blob, s: set<Bytes>)
    requires a != b && CollisionFree(s)
    requires Preimages(CanonicalGenesis(a)) <= s && Preimages(CanonicalGenesis(b)) <= s
    ensures BlockHash(CanonicalGenesis(a)) != BlockHash(CanonicalGenesis(b))
  {
    hide MerkleRoot, Txids, Wtxids, Preimages, EncodeHeader;
    var x, y := CanonicalGenesis(a), CanonicalGenesis(b);
    assert x.transactions[0].outputs[0].recipient != y.transactions[0].outputs[0].recipient;
    if BlockHash(x) == BlockHash(y) {
      HashCommitsToBlock(x, y, s);
      assert false;
    }
  }

  /** The unmined block over a coinbase and an empty pool, on top of a chain. */
  function EmptyBlock(chain: seq<Block>, coinbase: Transaction, timestamp: u64, nonce: u64): Block
    requires chain != []
  {
    Unmined(chain[|chain| - 1], coinbase, [], timestamp, ExpectedDifficulty(chain, |chain|), nonce)
  }

  /** Every valid chain grows by every nonce that meets the expected difficulty, as long as the coinbase id is new; so
      the theorems about valid chains speak of chains of every length that can be mined. */
  lemma {:induction false} ValidChainsGrow(chain: seq<Block>, recipient: Blob, timestamp: u64, nonce: u64)
    requires Valid(chain) && chain != [] && recipient != [] && |chain| <= MAX_U64
    requires chain[|chain| - 1].header.timestamp <= timestamp
    requires var coinbase := CoinbaseFor(chain[|chain| - 1], recipient);
      coinbase.Some? ==>
        && Fresh(Rebuild(chain).value.utxo, Txid(coinbase.value), 1)
        && HeaderPowOk(EmptyBlock(chain, coinbase.value, timestamp, nonce).header)
    ensures CoinbaseFor(chain[|chain| - 1], recipient).Some?
    ensures var coinbase := CoinbaseFor(chain[|chain| - 1], recipient).value;
      Valid(chain + [EmptyBlock(chain, coinbase, timestamp, nonce)])
  {
    hide Rebuild, HeaderPowOk, MerkleRoot, Txid, ExpectedDifficulty, BlockConsensusOk, Fresh, Unmined;
    TipHeight(chain);
    var previous, u := chain[|chain| - 1], Rebuild(chain).value.utxo;
    var coinbase := CoinbaseFor(previous, recipient).value;
    BuiltBlockAccepted(chain, recipient, [], timestamp, nonce);
    ConsensusIffValid(chain, EmptyBlock(chain, coinbase, timestamp, nonce));
  }
}
