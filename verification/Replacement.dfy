/** Assembling and choosing candidate chains (chain_replacement.hpp). */
module Replacement {
  import opened Types
  import opened BlockCodec
  import opened Consensus
  import opened Rules
  import opened Utxo
  import opened ChainValidator
  import opened ChainWork

  /** Index of the first block with the hash; the length if there is none. */
  function FirstWithHash(chain: seq<Block>, hash: Hash256): (i: nat)
    ensures i <= |chain|
    ensures i < |chain| ==> BlockHash(chain[i]) == hash
    ensures forall j :: 0 <= j < i ==> BlockHash(chain[j]) != hash
  {
    if chain == [] then 0
    else if BlockHash(chain[0]) == hash then 0
    else 1 + FirstWithHash(chain[1..], hash)
  }

  /** The search loop that several handlers share. */
  method FindHash(chain: seq<Block>, hash: Hash256) returns (i: nat)
    ensures i == FirstWithHash(chain, hash)
  {
    i := 0;
    while i < |chain| && BlockHash(chain[i]) != hash
      invariant i <= |chain| && forall j :: 0 <= j < i ==> BlockHash(chain[j]) != hash
    {
      i := i + 1;
    }
  }

  /** The blocks match the headers and link onto `ancestor`, one height after the other. */
  predicate Joins(ancestor: Block, headers: seq<BlockHeader>, blocks: seq<Block>)
    requires |headers| == |blocks|
  {
    forall i :: 0 <= i < |blocks| ==> JoinsAt(ancestor, headers, blocks, i)
  }

  predicate JoinsAt(ancestor: Block, headers: seq<BlockHeader>, blocks: seq<Block>, i: nat)
    requires i < |headers| == |blocks|
  {
    && HeaderHash(headers[i]) == BlockHash(blocks[i])
    && var previous := if i == 0 then ancestor else blocks[i - 1];
       && blocks[i].header.previousHash == BlockHash(previous)
       && blocks[i].header.height == NextHeight(previous.header.height)
  }

  function AssembleCandidate(current: seq<Block>, headers: seq<BlockHeader>, blocks: seq<Block>): Option<seq<Block>> {
    if current == [] || headers == [] || blocks == [] || |headers| != |blocks| then None
    else
      var a := FirstWithHash(current, headers[0].previousHash);
      if a < |current| && Joins(current[a], headers, blocks) then Some(current[..a + 1] + blocks) else None
  }

  /** assemble_candidate_chain, with its running hash and height. */
  method Assemble(current: seq<Block>, headers: seq<BlockHeader>, blocks: seq<Block>) returns (r: Option<seq<Block>>)
    ensures r == AssembleCandidate(current, headers, blocks)
  {
    hide HeaderHash;
    if current == [] || headers == [] || blocks == [] || |headers| != |blocks| {
      return None;
    }
    var a := FindHash(current, headers[0].previousHash);
    if a == |current| {
      return None;
    }
    var candidate := current[..a + 1];
    var previousHash := BlockHash(current[a]);
    var expectedHeight := NextHeight(current[a].header.height);
    for i := 0 to |blocks|
      invariant candidate == current[..a + 1] + blocks[..i]
      invariant forall k :: 0 <= k < i ==> JoinsAt(current[a], headers, blocks, k)
      invariant var previous := if i == 0 then current[a] else blocks[i - 1];
        previousHash == BlockHash(previous) && expectedHeight == NextHeight(previous.header.height)
    {
      var b := blocks[i];
      if HeaderHash(headers[i]) != BlockHash(b) || b.header.previousHash != previousHash
        || b.header.height != expectedHeight
      {
        assert !JoinsAt(current[a], headers, blocks, i);
        return None;
      }
      candidate := candidate + [b];
      previousHash := BlockHash(b);
      expectedHeight := NextHeight(expectedHeight);
    }
    assert blocks[..|blocks|] == blocks;
    r := Some(candidate);
  }

  /** Block `k` of a candidate that leaves the local chain after block `a`: it has the hash of its header, and names
      the block before it and the next height. */
  ghost predicate LinkedAt(c: seq<Block>, headers: seq<BlockHeader>, a: nat, k: nat)
    requires a < k < |c| <= a + 1 + |headers|
  {
    && Sha256(EncodeHeader(headers[k - a - 1])) == BlockHash(c[k])
    && c[k].header.previousHash == BlockHash(c[k - 1])
    && c[k].header.height == NextHeight(c[k - 1].header.height)
  }

  lemma {:induction false} JoinsIsLinked(current: seq<Block>, headers: seq<BlockHeader>, blocks: seq<Block>, a: nat,
      k: nat)
    requires a < |current| && |headers| == |blocks| && a < k <= a + |blocks|
    ensures JoinsAt(current[a], headers, blocks, k - a - 1) <==> LinkedAt(current[..a + 1] + blocks, headers, a, k)
  {
    hide EncodeHeader;
    var c := current[..a + 1] + blocks;
    assert c[k] == blocks[k - a - 1] && c[k - 1] == if k == a + 1 then current[a] else blocks[k - a - 2];
  }

  /** The candidate is the local chain up to the first block that the headers continue, and the received blocks. It is
      made exactly if every received block is linked. */
  lemma {:induction false} AssembledIff(current: seq<Block>, headers: seq<BlockHeader>, blocks: seq<Block>, a: nat)
    requires a < |current| && headers != [] && |headers| == |blocks|
    requires BlockHash(current[a]) == headers[0].previousHash
    requires forall j :: 0 <= j < a ==> BlockHash(current[j]) != headers[0].previousHash
    ensures var c, made := current[..a + 1] + blocks, AssembleCandidate(current, headers, blocks);
      && (made.Some? <==> forall k :: a < k < |c| ==> LinkedAt(c, headers, a, k))
      && (made.Some? ==> made.value == c)
  {
    hide JoinsAt, LinkedAt, BlockHash;
    var c := current[..a + 1] + blocks;
    assert FirstWithHash(current, headers[0].previousHash) == a;
    if AssembleCandidate(current, headers, blocks).Some? {
      forall k | a < k < |c| ensures LinkedAt(c, headers, a, k) {
        JoinsIsLinked(current, headers, blocks, a, k);
      }
    }
    if forall k :: a < k < |c| ==> LinkedAt(c, headers, a, k) {
      forall i | 0 <= i < |blocks| ensures JoinsAt(current[a], headers, blocks, i) {
        JoinsIsLinked(current, headers, blocks, a, a + 1 + i);
      }
    }
  }

  /** ChainReplacementPlan */
  datatype Plan = Plan(chain: seq<Block>, utxo: Utxo)

  /** None where the source refuses, or throws because the current chain's work cannot be counted. */
  function PrepareReplacement(current: seq<Block>, candidate: seq<Block>): Option<Plan> {
    if candidate == [] then None
    else if current != [] && BlockHash(candidate[0]) != BlockHash(current[0]) then None
    else if !Valid(candidate) then None
    else if current != [] && !(WorkFits(current) && HasMoreWork(candidate, current)) then None
    else Some(Plan(candidate, Rebuild(candidate).value.utxo))
  }

  /** has_more_work over limbs: it throws exactly if it has to count work it cannot, and compares the numbers
      otherwise. */
  method CompareWork(candidate: seq<Block>, current: seq<Block>) returns (r: Option<bool>)
    ensures r.None? <==> candidate != [] && current != [] && !(WorkFits(candidate) && WorkFits(current))
    ensures r.Some? ==> r.value == HasMoreWork(candidate, current)
  {
    hide Rebuild, Work, Pow2;
    if candidate == [] {
      return Some(false);
    }
    if current == [] {
      return Some(true);
    }
    var mine, ok := CumulativeChainWork(candidate);
    var theirs, ok' := CumulativeChainWork(current);
    if !ok || !ok' {
      return None;
    }
    var less := theirs.Less(mine);
    r := Some(less);
  }

  /** prepare_chain_replacement */
  method Prepare(current: seq<Block>, candidate: seq<Block>) returns (r: Option<Plan>)
    ensures r == PrepareReplacement(current, candidate)
  {
    hide Rebuild, Work, HeaderHash;
    if candidate == [] || (current != [] && BlockHash(candidate[0]) != BlockHash(current[0])) {
      return None;
    }
    var rebuilt := ValidateAndRebuildChain(candidate);
    if rebuilt.None? {
      return None;
    }
    if current != [] {
      ValidWorkFits(candidate);
      var more := CompareWork(candidate, current);
      if more != Some(true) {
        return None;
      }
    }
    r := Some(Plan(candidate, rebuilt.value.utxo));
  }
}
