/** Blocks relayed by peers, validated in one incremental pass (p2p_relay.hpp). */
module Relay {
  import opened Types
  import opened BlockCodec
  import opened Consensus
  import opened Rules
  import opened Utxo
  import opened ChainValidator
  import opened ChainFacts
  import opened ChainWork

  /** What a batch should do: each block in turn is appended if the whole longer chain is valid. */
  function Absorb(chain: seq<Block>, incoming: seq<Block>): seq<Block> {
    if incoming == [] then chain
    else
      var before := Absorb(chain, incoming[..|incoming| - 1]);
      var longer := before + [incoming[|incoming| - 1]];
      if Valid(longer) then longer else before
  }

  /** One block against the running ledger. The set is copied, so a refused block leaves the
      running one alone. */
  method TryExtend(chain: seq<Block>, st: LedgerState, b: Block) returns (r: Option<LedgerState>)
    requires chain != []
    ensures r == Extend(chain, st, b)
  {
    hide BasicOk, ApplyBlock, Issue, ExpectedDifficulty, HeaderHash;
    if !BasicOk(b) || !Follows(chain, b) {
      return None;
    }
    var issued := AddCoinbaseIssuance(b, st.issued);
    if issued.None? {
      return None;
    }
    var utxos := new UTXOSet(st.utxo);
    var ok := ApplyBlockInPlace(b, utxos);
    r := if ok then Some(LedgerState(utxos.entries, issued.value)) else None;
  }

  /** handle_blocks, once the payload is parsed: the unspent set and the total are carried along
      instead of being rebuilt for each block. The result is the chain that full validation of
      each longer chain would give, and it is valid, so storing it cannot be refused. */
  method HandleBlocks(stored: seq<Block>, incoming: seq<Block>) returns (chain: seq<Block>, accepted: seq<Block>)
    requires Valid(stored)
    ensures chain == Absorb(stored, incoming)
    ensures Valid(chain) && chain == stored + accepted
  {
    hide Rebuild, Extend, Reissue, Issue;
    TipHeight(stored);
    chain, accepted := stored, [];
    var rebuilt := ValidateAndRebuildChain(stored);
    var st := rebuilt.value;
    var total := RecountIssuance(stored);
    ReissueAgrees(stored);
    st := LedgerState(st.utxo, total.value);
    for i := 0 to |incoming|
      invariant chain == Absorb(stored, incoming[..i]) == stored + accepted
      invariant Rebuild(chain) == Some(st)
    {
      assert incoming[..i + 1][..i] == incoming[..i];
      ExtendsValid(chain, incoming[i]);
      var next := TryExtend(chain, st, incoming[i]);
      if next.Some? {
        chain := chain + [incoming[i]];
        accepted := accepted + [incoming[i]];
        st := next.value;
      }
    }
    assert incoming[..|incoming|] == incoming;
  }

  /** A batch never makes the chain invalid, never drops a block, and adds work with each block. */
  lemma {:induction false} AbsorbGrows(chain: seq<Block>, incoming: seq<Block>)
    requires Valid(chain)
    ensures Valid(Absorb(chain, incoming)) && chain <= Absorb(chain, incoming)
    ensures Absorb(chain, incoming) != chain ==> Work(Absorb(chain, incoming)) > Work(chain)
    ensures Work(Absorb(chain, incoming)) >= Work(chain)
  {
    hide Rebuild, Work, Pow2;
    if incoming != [] {
      AbsorbGrows(chain, incoming[..|incoming| - 1]);
      WorkExtend(Absorb(chain, incoming[..|incoming| - 1]), incoming[|incoming| - 1]);
    }
  }

  /** Splitting a batch makes no difference. */
  lemma {:induction false} AbsorbConcat(chain: seq<Block>, x: seq<Block>, y: seq<Block>)
    ensures Absorb(chain, x + y) == Absorb(Absorb(chain, x), y)
  {
    hide Rebuild;
    if y == [] {
      assert x + y == x;
    } else {
      AbsorbConcat(chain, x, y[..|y| - 1]);
      assert (x + y)[..|x + y| - 1] == x + y[..|y| - 1];
    }
  }

  /** If the blocks continue the chain to a valid one, all of them are absorbed. */
  lemma {:induction false} AbsorbAll(chain: seq<Block>, more: seq<Block>)
    requires Valid(chain) && Valid(chain + more)
    ensures Absorb(chain, more) == chain + more
  {
    hide Rebuild;
    TipHeight(chain);
    if more == [] {
      assert chain + more == chain;
    } else {
      var front := more[..|more| - 1];
      assert (chain + more)[..|chain + front|] == chain + front;
      RebuildPrefix(chain + more, |chain + front|);
      AbsorbAll(chain, front);
      assert chain + front + [more[|more| - 1]] == chain + more;
    }
  }
}
