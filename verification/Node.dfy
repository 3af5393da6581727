/** The node: chain file, mempool and chain cache under locks (node.hpp, and the storage side of p2p_relay.hpp).

Each method is one critical section, so every interleaving of threads is a sequence of calls. What a
thread carries from one critical section to the next (a candidate block, an assembled chain) is an argument, and
may be anything.
 */
module Node {
  import opened Types
  import opened TransactionCodec
  import opened BlockCodec
  import opened Consensus
  import opened Coinbase
  import opened Rules
  import opened Utxo
  import opened ChainValidator
  import opened ChainFacts
  import opened Confirmed
  import opened ChainWork
  import opened Pool
  import opened Sweep
  import opened Mempool
  import opened Provenance
  import opened Reorg
  import opened BlockBuilder
  import opened Replacement
  import opened Relay
  import opened Storage

  // ----- What a commit does to the stored chain -----

  /** The new chain can be saved, has the same genesis hash and strictly more work. */
  ghost predicate Advances(before: seq<Block>, after: seq<Block>) {
    && before != [] && after != [] && Savable(after)
    && BlockHash(after[0]) == BlockHash(before[0])
    && Work(after) > Work(before)
  }

  lemma {:induction false} AppendAdvances(chain: seq<Block>, b: Block)
    requires chain != [] && Savable(chain + [b])
    ensures Advances(chain, chain + [b])
  {
    hide Work, Rebuild, BlockHash, Storable;
    WorkExtend(chain, b);
  }

  lemma {:induction false} AbsorbAdvances(chain: seq<Block>, incoming: seq<Block>)
    requires Valid(chain) && Absorb(chain, incoming) != chain && Savable(Absorb(chain, incoming))
    ensures Advances(chain, Absorb(chain, incoming))
  {
    hide Work, Rebuild, BlockHash, Storable, Absorb;
    TipHeight(chain);
    AbsorbGrows(chain, incoming);
  }

  lemma {:induction false} ReplacementAdvances(chain: seq<Block>, candidate: seq<Block>)
    requires chain != [] && PrepareReplacement(chain, candidate).Some? && Savable(candidate)
    ensures Advances(chain, candidate)
  {
    hide Work, Rebuild, BlockHash, Storable;
  }

  /** One critical section, as the file sees it. */
  ghost predicate FileStep(before: Bytes, after: Bytes) {
    || after == before
    || (DecodeFile(before).Some? &&
        exists chain :: after == EncodeFile(chain) && Advances(DecodeFile(before).value, chain))
  }

  datatype Outcome = Unreadable | NoCoinbase | NotFound | Stale | Rejected | NotStored | Committed

  class Node {
    const storage: BlockchainStorage
    const mempool: Mempool
    var cache: seq<Block>
    var cacheValid: bool
    /** Relayed batches that are stored but whose cache invalidation has not run yet. */
    var owed: nat

    ghost predicate Valid()
      reads this, storage, mempool
    {
      && mempool.Valid() && storage.file.Some?
      && (cacheValid && owed == 0 ==> DecodeFile(storage.file.value) == Some(cache))
    }

    /** The node starts with a chain file in place and nothing cached. */
    constructor (storage: BlockchainStorage)
      requires storage.file.Some?
      ensures Valid() && this.storage == storage && fresh(mempool) && mempool.transactions == map[]
    {
      this.storage := storage;
      this.mempool := new Mempool();
      cache, cacheValid, owed := [], false, 0;
    }

    /** chain(): what readers see. It can only be out of date while an invalidation is owed. */
    method Chain() returns (r: Option<seq<Block>>)
      requires Valid()
      modifies this
      ensures Valid() && owed == old(owed)
      ensures owed == 0 ==> r == DecodeFile(storage.file.value)
    {
      hide DecodeFile, Bookkept;
      if !cacheValid {
        var loaded := storage.Load();
        if loaded.None? {
          return None;
        }
        cache, cacheValid := loaded.value, true;
      }
      r := Some(cache);
    }

    /** The callback that a relayed batch runs after it released the lock. */
    method InvalidateCache()
      requires Valid() && owed > 0
      modifies this
      ensures Valid() && owed == old(owed) - 1 && !cacheValid
    {
      hide DecodeFile, Bookkept;
      cacheValid, owed := false, owed - 1;
    }

    /** replace_chain, for a candidate assembled at any earlier time. */
    method ReplaceChain(candidate: seq<Block>, ghost rank: map<Hash256, nat>) returns (outcome: Outcome)
      requires Valid()
      modifies this, storage, mempool
      ensures Valid() && owed == old(owed)
      ensures FileStep(old(storage.file.value), storage.file.value)
      ensures var current := DecodeFile(old(storage.file.value));
        && (outcome.Committed? <==>
              current.Some? && PrepareReplacement(current.value, candidate).Some? && Savable(candidate))
        && (outcome.Committed? ==> storage.file == Some(EncodeFile(candidate)))
      ensures !outcome.Committed? ==>
        storage.file == old(storage.file) && mempool.transactions == old(mempool.transactions)
      ensures Submap(mempool.transactions, old(mempool.transactions))
      ensures outcome.Committed? ==>
        var u, p := Rebuild(candidate).value.utxo, old(mempool.transactions);
        (OldPool(p, rank) && FundedAreFresh(u, p) ==>
          Orderly(u, mempool.transactions) && Retained(u, p, mempool.transactions))
    {
      hide DecodeFile, EncodeFile, Bookkept, PrepareReplacement, Savable, Rebuild, Retained, OldPool, FundedAreFresh,
        Orderly, Advances, Submap;
      WholePool(mempool.transactions);
      ghost var before := storage.file.value;
      var current := storage.Load();
      if current.None? {
        return Unreadable;
      }
      LoadsValid(before);
      TipHeight(current.value);
      PlanIsCandidate(current.value, candidate);
      var plan := Prepare(current.value, candidate);
      if plan.None? {
        return Rejected;
      }
      var saved := storage.Save(plan.value.chain);
      if !saved {
        return NotStored;
      }
      ReplacementAdvances(current.value, candidate);
      cacheValid := false;
      RevalidateAfterReorg(mempool, plan.value.chain, rank);
      outcome := Committed;
    }

    /** accept_transaction. The pool stays one of transactions that were funded when admitted. */
    method AcceptTransaction(tx: Transaction, ghost s: set<Bytes>) returns (reason: Option<Reason>)
      requires Valid()
      modifies mempool
      ensures Valid()
      ensures reason.None? <==> DecodeFile(storage.file.value).None?
      ensures reason.None? ==> mempool.transactions == old(mempool.transactions)
      ensures reason.Some? && IsCoinbase(tx) ==> reason.value == InvalidTransaction
      ensures reason.Some? ==>
        && (reason.value.Accepted? ==> mempool.transactions == old(mempool.transactions)[Txid(tx) := tx])
        && (!reason.value.Accepted? ==> mempool.transactions == old(mempool.transactions))
        && var u := Rebuild(DecodeFile(storage.file.value).value).value.utxo;
           (!IsCoinbase(tx) ==>
             && reason.value == AdmissionReason(u, old(mempool.transactions), tx)
             && (Orderly(u, old(mempool.transactions)) ==>
                   (reason.value.Accepted? <==> Admissible(u, old(mempool.transactions), tx))))
      ensures reason.Some? && IdPreimages(Flatten(DecodeFile(storage.file.value).value)) <= s ==>
        PutBase(tx, []) in s && Vouched(old(mempool.transactions), s) ==> Vouched(mempool.transactions, s)
    {
      hide DecodeFile, Bookkept, Rebuild, Orderly, Admissible, IsCoinbase, Txid, AdmissionReason, Vouched, Flatten,
        IdPreimages, PutBase, KeyedById;
      var chain := storage.Load();
      if chain.None? {
        return None;
      }
      LoadsValid(storage.file.value);
      var rebuilt := ValidateAndRebuildChain(chain.value);
      if IsCoinbase(tx) {
        return Some(InvalidTransaction);
      }
      ghost var p := mempool.transactions;
      SnapshotKeys(p, mempool.reserved, mempool.bytes);
      var r := mempool.Accept(tx, rebuilt.value.utxo);
      if r.Accepted? && IdPreimages(Flatten(chain.value)) <= s && PutBase(tx, []) in s && Vouched(p, s) {
        ChainRooted(chain.value, s);
        AcceptVouches(rebuilt.value.utxo, p, tx, s);
      }
      reason := Some(r);
    }

    /** The first critical section of mine_one_block, and build_pool_candidate: an unmined block on
        top of the chain as it is now. */
    method BuildCandidate(recipient: Blob, now: u64) returns (r: Option<Block>, ordered: seq<Transaction>)
      requires Valid()
      ensures var chain := DecodeFile(storage.file.value);
        r.Some? <==>
          chain.Some? && chain.value != [] && CoinbaseFor(chain.value[|chain.value| - 1], recipient).Some?
      ensures r.Some? ==>
        var chain := DecodeFile(storage.file.value);
        && chain.Some? && chain.value != [] && ChainValidator.Valid(chain.value)
        && var previous := chain.value[|chain.value| - 1];
           && CoinbaseFor(previous, recipient).Some?
           && r.value == Unmined(previous, CoinbaseFor(previous, recipient).value, ordered,
                BlockTime(previous, now), ExpectedDifficulty(chain.value, |chain.value|), 0)
           && r.value.header.timestamp == (if now > previous.header.timestamp then now else previous.header.timestamp)
           && var u := Rebuild(chain.value).value.utxo;
              && ordered == Swept(u, mempool.transactions, Ascending(mempool.transactions.Keys))
              && (Orderly(u, mempool.transactions) ==> IsOrder(u, mempool.transactions, ordered))
    {
      hide DecodeFile, Bookkept, Rebuild, Orderly, IsOrder, MakeCoinbase, ExpectedDifficulty, Unmined, Swept, Ascending;
      ordered := [];
      var chain := storage.Load();
      if chain.None? {
        return None, [];
      }
      LoadsValid(storage.file.value);
      TipHeight(chain.value);
      var rebuilt := ValidateAndRebuildChain(chain.value);
      var previous := chain.value[|chain.value| - 1];
      var built, order := Build(previous, mempool, recipient, BlockTime(previous, now),
        ExpectedDifficulty(chain.value, |chain.value|), 0, rebuilt.value.utxo);
      r, ordered := built, order;
    }

    /** submit_pool_solution, and the second critical section of mine_one_block: any candidate at all is stored
        exactly if it makes the stored chain a longer valid one that can be written. */
    method CommitBlock(candidate: Block) returns (outcome: Outcome)
      requires Valid()
      modifies this, storage, mempool
      ensures Valid() && owed == old(owed)
      ensures FileStep(old(storage.file.value), storage.file.value)
      ensures var chain := DecodeFile(old(storage.file.value));
        && (outcome.Committed? <==> chain.Some? && Savable(chain.value + [candidate]))
        && (outcome.Committed? ==>
              storage.file == Some(EncodeFile(chain.value + [candidate])) && mempool.transactions == map[])
        && (outcome.NotStored? ==> chain.Some? && ChainValidator.Valid(chain.value + [candidate]))
        && (outcome.Rejected? ==> chain.Some? && !ChainValidator.Valid(chain.value + [candidate]))
        && (outcome.Unreadable? <==> chain.None?)
        && (outcome.Stale? <==>
              && chain.Some? && chain.value != []
              && var tip := chain.value[|chain.value| - 1];
                 candidate.header.height != NextHeight(tip.header.height) ||
                 candidate.header.previousHash != BlockHash(tip))
      ensures outcome in {Unreadable, Stale, Rejected, NotStored, Committed}
      ensures !outcome.Committed? ==>
        storage.file == old(storage.file) && mempool.transactions == old(mempool.transactions)
    {
      hide DecodeFile, EncodeFile, Bookkept, Rebuild, Storable, Advances, BasicOk, BlockConsensusOk, HeaderHash, Work;
      ghost var before := storage.file.value;
      var loaded := storage.Load();
      if loaded.None? {
        return Unreadable;
      }
      var chain := loaded.value;
      LoadsValid(before);
      TipHeight(chain);
      NextFollows(chain, candidate);
      if !OnTip(chain, candidate) {
        return Stale;
      }
      var rebuilt := ValidateAndRebuildChain(chain);
      ConsensusIffValid(chain, candidate);
      var accepted := ValidateBlockConsensus(candidate, chain, rebuilt.value.utxo);
      if !accepted {
        return Rejected;
      }
      var stored := storage.Append(candidate);
      if !stored {
        return NotStored;
      }
      AppendAdvances(chain, candidate);
      cacheValid := false;
      mempool.Clear();
      outcome := Committed;
    }

    /** The critical section of handle_blocks. The pool is left alone, and the cache is invalidated later. */
    method RelayBlocks(incoming: seq<Block>) returns (accepted: seq<Block>)
      requires Valid()
      modifies this, storage
      ensures Valid()
      ensures FileStep(old(storage.file.value), storage.file.value)
      ensures var chain := DecodeFile(old(storage.file.value));
        if chain.Some? && Absorb(chain.value, incoming) != chain.value && Savable(Absorb(chain.value, incoming)) then
          && storage.file == Some(EncodeFile(Absorb(chain.value, incoming))) && owed == old(owed) + 1
          && Absorb(chain.value, incoming) == chain.value + accepted
        else storage.file == old(storage.file) && owed == old(owed) && accepted == []
    {
      hide DecodeFile, EncodeFile, Bookkept, Rebuild, Storable, Advances, Absorb;
      ghost var before := storage.file.value;
      var loaded := storage.Load();
      if loaded.None? {
        return [];
      }
      LoadsValid(before);
      TipHeight(loaded.value);
      var chain, taken := HandleBlocks(loaded.value, incoming);
      if taken == [] {
        assert loaded.value + [] == loaded.value;
        return [];
      }
      assert |chain| != |loaded.value|;
      var saved := storage.Save(chain);
      if !saved {
        return [];
      }
      AbsorbAdvances(loaded.value, incoming);
      owed := owed + 1;
      accepted := taken;
    }

    /** mine_one_block when nothing else happens between its two critical sections. It never finds its block stale; and
        for any pool of transactions that were funded when admitted, whether it fits the stored chain or not,
        validation refuses the mined block exactly if its coinbase is not new. */
    method MineUndisturbed(recipient: Blob, now: u64, maxAttempts: u64, ghost s: set<Bytes>) returns (outcome: Outcome)
      requires Valid()
      modifies this, storage, mempool
      ensures Valid() && !outcome.Stale?
      ensures var chain := DecodeFile(old(storage.file.value));
        chain.Some? && chain.value != [] && ChainValidator.Valid(chain.value) ==>
          Known(chain.value, old(mempool.transactions), recipient, s) ==>
            && (outcome.Rejected? ==> !CoinbaseIsNew(chain.value, recipient))
            && (outcome.NotStored? || outcome.Committed? ==> CoinbaseIsNew(chain.value, recipient))
    {
      hide DecodeFile, EncodeFile, Bookkept, Rebuild, Storable, FileStep, ExpectedDifficulty, MakeCoinbase,
        HeaderPowOk, BlockConsensusOk, Txid, Fresh, Orderly, IsOrder, HeaderHash, Txids, Wtxids, Swept, Ascending,
        Vouched, KeyedById, CollisionFree, IdPreimages, Flatten, PutBase, BigEndian, Pow2, EncodeHeader;
      SnapshotKeys(mempool.transactions, mempool.reserved, mempool.bytes);
      var candidate, ordered := BuildCandidate(recipient, now);
      if candidate.None? {
        return NoCoinbase;
      }
      var mined := Mine(candidate.value, 0, maxAttempts);
      if mined.None? {
        return NotFound;
      }
      HeaderPowIsTarget(mined.value.header);
      ghost var chain := DecodeFile(storage.file.value).value;
      if Known(chain, mempool.transactions, recipient, s) {
        MinedBlockAccepted(chain, mempool.transactions, Ascending(mempool.transactions.Keys), recipient,
          BlockTime(chain[|chain| - 1], now), mined.value.header.nonce, s);
        ConsensusIffValid(chain, mined.value);
      }
      SavableIsValid(chain + [mined.value]);
      outcome := CommitBlock(mined.value);
    }
  }

  lemma {:induction false} SavableIsValid(chain: seq<Block>)
    ensures Savable(chain) ==> ChainValidator.Valid(chain)
  {
  }

  /** The staleness check: the block still names the tip. */
  predicate OnTip(chain: seq<Block>, b: Block)
    requires chain != []
  {
    var previous := chain[|chain| - 1];
    b.header.previousHash == BlockHash(previous) && b.header.height == NextHeight(previous.header.height)
  }

  /** The clock, but never before the tip. */
  function BlockTime(previous: Block, now: u64): u64 {
    if now < previous.header.timestamp then previous.header.timestamp else now
  }

  /** What chain, pool and the next coinbase digest is free of collisions, and the pool was funded when admitted. */
  ghost predicate Known(chain: seq<Block>, p: Pool, recipient: Blob, s: set<Bytes>)
    requires chain != []
  {
    var coinbase := CoinbaseFor(chain[|chain| - 1], recipient);
    && CollisionFree(s) && IdPreimages(Flatten(chain)) <= s && Vouched(p, s)
    && (coinbase.Some? ==> PutBase(coinbase.value, []) in s)
  }

  ghost predicate CoinbaseIsNew(chain: seq<Block>, recipient: Blob)
    requires ChainValidator.Valid(chain) && chain != []
  {
    var coinbase := CoinbaseFor(chain[|chain| - 1], recipient);
    coinbase.Some? ==> Fresh(Rebuild(chain).value.utxo, Txid(coinbase.value), 1)
  }

  lemma {:induction false} WholePool(p: Pool)
    ensures Submap(p, p)
  {
  }

  /** A part of a pool that was funded when admitted was too; so replacing the chain keeps it so. */
  lemma {:induction false} PartVouched(r: Pool, p: Pool, s: set<Bytes>)
    requires Submap(r, p) && Vouched(p, s)
    ensures Vouched(r, s)
  {
    hide OnceFunded;
  }

  lemma {:induction false} PlanIsCandidate(current: seq<Block>, candidate: seq<Block>)
    ensures var plan := PrepareReplacement(current, candidate);
      plan.Some? ==> plan.value.chain == candidate && ChainValidator.Valid(candidate)
  {
    hide Rebuild, Work, HeaderHash;
  }

  lemma {:induction false} NextFollows(chain: seq<Block>, b: Block)
    requires ChainValidator.Valid(chain) && chain != []
    ensures ChainValidator.Valid(chain + [b]) ==> OnTip(chain, b)
  {
    hide Rebuild, HeaderHash, BasicOk;
    NextIsBasic(chain, b);
  }

  // ----- Every run -----

  /** Successive contents of the chain file, over any interleaving of critical sections. */
  ghost predicate FileRun(files: seq<Bytes>) {
    files != [] && forall i :: 0 < i < |files| ==> FileStep(files[i - 1], files[i])
  }

  ghost predicate Saves(file: Bytes, chain: seq<Block>) {
    chain != [] && Savable(chain) && file == EncodeFile(chain)
  }

  /** Over every run that starts with a readable file, each file is the save of exactly one chain; that chain is
      valid and keeps the genesis hash, and each change of the file adds work, so no earlier file ever comes back. */
  lemma {:induction false} EveryRunAdvances(files: seq<Bytes>) returns (chains: seq<seq<Block>>)
    requires FileRun(files) && DecodeFile(files[0]).Some?
    ensures |chains| == |files| && chains[0] == DecodeFile(files[0]).value
    ensures forall i :: 0 <= i < |files| ==>
      && Saves(files[i], chains[i]) && BlockHash(chains[i][0]) == BlockHash(chains[0][0])
      && (DecodeFile(files[i]).Some? ==> DecodeFile(files[i]).value == chains[i])
    ensures forall i, j :: 0 <= i < j < |files| ==> files[i] == files[j] || Work(chains[i]) < Work(chains[j])
    ensures forall i, j :: 0 <= i < j < |files| ==> Work(chains[i]) <= Work(chains[j])
    decreases |files|
  {
    hide DecodeFile, EncodeFile, Savable, Work, BlockHash;
    if |files| == 1 {
      FirstSaved(files[0]);
      chains := [DecodeFile(files[0]).value];
    } else {
      var n := |files| - 1;
      var front := files[..n];
      var before := EveryRunAdvances(front);
      assert FileStep(files[n - 1], files[n]);
      var last := NextSaved(files[n - 1], files[n], before[n - 1]);
      chains := before + [last];
      assert forall i :: 0 <= i < n ==> files[i] == front[i] && chains[i] == before[i];
    }
  }

  lemma {:induction false} FirstSaved(file: Bytes)
    requires DecodeFile(file).Some?
    ensures Saves(file, DecodeFile(file).value)
  {
    hide DecodeFile, EncodeFile, Rebuild, Storable;
    FileInverse(file);
    TipHeight(DecodeFile(file).value);
  }

  lemma {:induction false} NextSaved(before: Bytes, after: Bytes, chain: seq<Block>) returns (next: seq<Block>)
    requires FileStep(before, after) && Saves(before, chain)
    requires DecodeFile(before).Some? ==> DecodeFile(before).value == chain
    ensures Saves(after, next) && BlockHash(next[0]) == BlockHash(chain[0])
    ensures DecodeFile(after).Some? ==> DecodeFile(after).value == next
    ensures if after == before then next == chain else Work(next) > Work(chain)
  {
    hide DecodeFile, EncodeFile, Savable, Work, BlockHash;
    if after == before {
      next := chain;
    } else {
      next :| after == EncodeFile(next) && Advances(chain, next);
      if DecodeFile(after).Some? {
        FirstSaved(after);
        SavedChainUnique(DecodeFile(after).value, next);
      }
    }
  }
}
