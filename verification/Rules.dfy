/** Context-free rules for transactions and blocks, and the expected difficulty
    (transaction.hpp, block.hpp). */
module Rules {
  import opened Types
  import opened TransactionCodec
  import opened BlockCodec
  import opened Merkle
  import opened Consensus
  import opened Coinbase

  function SumAmounts(outputs: seq<TxOutput>): nat {
    if outputs == [] then 0
    else SumAmounts(outputs[..|outputs| - 1]) + outputs[|outputs| - 1].amount
  }

  lemma {:induction false} SumPrefix(outputs: seq<TxOutput>, n: nat)
    requires n <= |outputs|
    ensures SumAmounts(outputs[..n]) <= SumAmounts(outputs)
    ensures n < |outputs| ==> SumAmounts(outputs[..n]) + outputs[n].amount <= SumAmounts(outputs)
  {
    if n == |outputs| {
      assert outputs[..n] == outputs;
    } else {
      var front := outputs[..|outputs| - 1];
      SumPrefix(front, n);
      assert front[..n] == outputs[..n];
    }
  }

  /** Transaction::validate */
  predicate TxValid(tx: Transaction) {
    && tx.version != 0
    && tx.inputs != [] && tx.outputs != []
    && (forall o :: o in tx.outputs ==> o.amount > 0 && o.recipient != [])
    && SumAmounts(tx.outputs) <= MAX_U64
  }

  /** The running 64-bit sum of the source rejects exactly the sums that do not fit. */
  method ValidateTransaction(tx: Transaction) returns (ok: bool)
    ensures ok == TxValid(tx)
  {
    if tx.version == 0 || tx.inputs == [] || tx.outputs == [] {
      return false;
    }
    var sum: u64 := 0;
    for i := 0 to |tx.outputs|
      invariant sum == SumAmounts(tx.outputs[..i])
      invariant forall k :: 0 <= k < i ==> tx.outputs[k].amount > 0 && tx.outputs[k].recipient != []
    {
      var o := tx.outputs[i];
      SumPrefix(tx.outputs, i);
      if o.amount == 0 || o.recipient == [] || o.amount > MAX_U64 - sum {
        return false;
      }
      assert tx.outputs[..i + 1][..i] == tx.outputs[..i];
      sum := sum + o.amount;
    }
    assert tx.outputs[..|tx.outputs|] == tx.outputs;
    SumPrefix(tx.outputs, 0);
    ok := sum > 0;
  }

  // ----- Blocks -----

  function Txids(txs: seq<Transaction>): seq<Hash256> {
    seq(|txs|, i requires 0 <= i < |txs| => Txid(txs[i]))
  }

  function Wtxids(txs: seq<Transaction>): seq<Hash256> {
    seq(|txs|, i requires 0 <= i < |txs| => Wtxid(txs[i]))
  }

  predicate RootsOk(b: Block) {
    && b.header.merkleRoot == MerkleRoot(Txids(b.transactions))
    && b.header.witnessRoot == MerkleRoot(Wtxids(b.transactions))
  }

  /** The mined header: the nonce is zeroed and passed to the proof-of-work hash apart. */
  function PowHeader(h: BlockHeader): Bytes { EncodeHeader(h.(nonce := 0)) }

  predicate HeaderPowOk(h: BlockHeader) {
    ValidatePow(PowHeader(h), h.nonce, h.difficulty)
  }

  /** The header with a zero nonce, hashed with its nonce, is below the target. */
  lemma {:induction false} HeaderPowIsTarget(h: BlockHeader)
    ensures HeaderPowOk(h) <==>
      h.difficulty <= 256 && BigEndian(PowHash(EncodeHeader(h.(nonce := 0)), h.nonce)) < Pow2(256 - h.difficulty)
  {
    PowIsTarget(PowHash(PowHeader(h), h.nonce), h.difficulty);
  }

  /** A genesis transaction either spends something or is the one-unit marker. */
  predicate GenesisTxOk(tx: Transaction) {
    && !IsCoinbase(tx)
    && if tx.inputs == [] then
         && |tx.outputs| == 1 && tx.outputs[0].amount == 1 && tx.outputs[0].recipient != []
         && tx.witnesses == []
       else TxValid(tx)
  }

  /** Block::validate_basic */
  predicate BasicOk(b: Block) {
    && b.header.version != 0
    && HeaderPowOk(b.header)
    && RootsOk(b)
    && if b.header.height == 0 then
         && b.header.previousHash == ZERO_HASH
         && b.transactions != []
         && forall tx :: tx in b.transactions ==> GenesisTxOk(tx)
       else
         && CoinbasePlacementOk(b.transactions, b.header.height)
         && forall i :: 1 <= i < |b.transactions| ==> TxValid(b.transactions[i])
  }

  /** validate_genesis_canonical */
  predicate GenesisOk(b: Block) {
    && b.header.height == 0 && b.header.previousHash == ZERO_HASH && b.header.difficulty == 0
    && BasicOk(b)
  }

  /** Heights are 64-bit and wrap. */
  function NextHeight(h: u64): u64 { if h == MAX_U64 then 0 else h + 1 }

  // ----- Expected difficulty -----

  /** The times of positions `pos - 12` to `pos - 1` never go back. */
  predicate TimesAscend(chain: seq<Block>, pos: nat)
    requires DIFFICULTY_WINDOW < pos <= |chain|
  {
    forall i :: pos - DIFFICULTY_WINDOW <= i < pos ==>
      chain[i - 1].header.timestamp <= chain[i].header.timestamp
  }

  function Intervals(chain: seq<Block>, pos: nat): seq<u64>
    requires DIFFICULTY_WINDOW < pos <= |chain| && TimesAscend(chain, pos)
  {
    seq(DIFFICULTY_WINDOW, k requires 0 <= k < DIFFICULTY_WINDOW =>
      var i := pos - DIFFICULTY_WINDOW + k;
      chain[i].header.timestamp - chain[i - 1].header.timestamp)
  }

  /** expected_difficulty_at_position */
  function ExpectedDifficulty(chain: seq<Block>, pos: nat): u32 {
    if EASY_FORK_HEIGHT <= pos < EASY_FORK_HEIGHT + DIFFICULTY_WINDOW then EASY_FORK_DIFFICULTY
    else if pos >= FIXED_HEIGHT then FIXED_DIFFICULTY
    else if pos == 0 || pos > |chain| then INITIAL_DIFFICULTY
    else
      var previous := chain[pos - 1].header;
      if previous.height == 0 && previous.difficulty == 0 then INITIAL_DIFFICULTY
      else if pos < DIFFICULTY_WINDOW + 1 then previous.difficulty
      else if !TimesAscend(chain, pos) then previous.difficulty
      else AdjustDifficulty(previous.difficulty, Intervals(chain, pos))
  }

  /** The loop of the source, which gives up at the first time that goes back. */
  method ExpectedDifficultyAtPosition(chain: seq<Block>, position: nat) returns (d: u32)
    ensures d == ExpectedDifficulty(chain, position)
  {
    if EASY_FORK_HEIGHT <= position < EASY_FORK_HEIGHT + DIFFICULTY_WINDOW {
      return EASY_FORK_DIFFICULTY;
    }
    if position >= FIXED_HEIGHT {
      return FIXED_DIFFICULTY;
    }
    if position == 0 || position > |chain| {
      return INITIAL_DIFFICULTY;
    }
    var previous := chain[position - 1].header;
    if previous.height == 0 && previous.difficulty == 0 {
      return INITIAL_DIFFICULTY;
    }
    if position < DIFFICULTY_WINDOW + 1 {
      return previous.difficulty;
    }
    var intervals: seq<u64> := [];
    var first := position - DIFFICULTY_WINDOW;
    for i := first to position
      invariant |intervals| == i - first
      invariant forall k :: first <= k < i ==> chain[k - 1].header.timestamp <= chain[k].header.timestamp
      invariant forall k :: 0 <= k < i - first ==>
        intervals[k] == chain[first + k].header.timestamp - chain[first + k - 1].header.timestamp
    {
      var now, before := chain[i].header.timestamp, chain[i - 1].header.timestamp;
      if now < before {
        return previous.difficulty;
      }
      intervals := intervals + [now - before];
    }
    assert intervals == Intervals(chain, position);
    d := AdjustDifficultyWindow(previous.difficulty, intervals);
  }

  /** On a chain that is not valid: a time that goes back, or a difficulty out of range, leaves the difficulty alone. */
  lemma {:induction false} OddChainKeepsDifficulty(chain: seq<Block>, pos: nat, i: nat)
    requires (12 <= pos < 19 || 30 <= pos < 40) && pos <= |chain| && pos - 11 <= i < pos
    requires chain[pos - 1].header.height != 0
    requires chain[i].header.timestamp < chain[i - 1].header.timestamp || chain[pos - 1].header.difficulty > 256
    ensures ExpectedDifficulty(chain, pos) == chain[pos - 1].header.difficulty
  {
    if chain[i].header.timestamp < chain[i - 1].header.timestamp {
      assert !TimesAscend(chain, pos);
    }
  }

  /** The rule for a position looks only at the blocks before it. */
  lemma {:induction false} DifficultyPrefixStable(chain: seq<Block>, pos: nat)
    requires pos <= |chain|
    ensures ExpectedDifficulty(chain, pos) == ExpectedDifficulty(chain[..pos], pos)
  {
    if DIFFICULTY_WINDOW < pos {
      assert TimesAscend(chain, pos) == TimesAscend(chain[..pos], pos);
      if TimesAscend(chain, pos) {
        assert Intervals(chain, pos) == Intervals(chain[..pos], pos);
      }
    }
  }
}
