/** Block locators and the headers sent in reply (p2p_relay.hpp). */
module Locators {
  import opened Types
  import opened BlockCodec
  import opened Consensus
  import opened Replacement

  const MAX_LOCATORS := 32
  const MAX_HEADERS := 2000

  /** How far behind the tip locator number `m` looks: ten single steps, then doubling ones. */
  function Distance(m: nat): nat { if m < 10 then m else 8 + Pow2(m - 9) }

  function LocatorIndex(tip: nat, m: nat): nat {
    if tip > Distance(m) then tip - Distance(m) else 0
  }

  /** A locator list of the chain: it goes back by the distances above and ends at genesis or
      after 32 entries, whichever is first. */
  ghost predicate IsLocators(chain: seq<Block>, locators: seq<Hash256>)
    requires chain != []
  {
    var tip := |chain| - 1;
    && 1 <= |locators| <= MAX_LOCATORS
    && (forall m :: 0 <= m < |locators| ==> locators[m] == BlockHash(chain[LocatorIndex(tip, m)]))
    && (LocatorIndex(tip, |locators| - 1) == 0 || |locators| == MAX_LOCATORS)
  }

  /** The locator loop of request_headers. */
  method BuildLocators(chain: seq<Block>) returns (locators: seq<Hash256>)
    requires chain != []
    ensures IsLocators(chain, locators)
  {
    hide Pow2, BlockHash;
    locators := [];
    var tip := |chain| - 1;
    var index, step := tip, 1;
    while true
      invariant |locators| < MAX_LOCATORS
      invariant index == LocatorIndex(tip, |locators|)
      invariant step == if |locators| < 10 then 1 else Pow2(|locators| - 9)
      invariant forall m :: 0 <= m < |locators| ==> locators[m] == BlockHash(chain[LocatorIndex(tip, m)])
      decreases MAX_LOCATORS - |locators|
    {
      DistanceStep(|locators|);
      locators := locators + [BlockHash(chain[index])];
      if index == 0 || |locators| == MAX_LOCATORS {
        return;
      }
      index := if index > step then index - step else 0;
      if |locators| >= 10 {
        step := step * 2;
      }
    }
  }

  lemma {:induction false} DistanceStep(m: nat)
    ensures Distance(m + 1) == Distance(m) + if m < 10 then 1 else Pow2(m - 9)
    ensures m == 9 ==> Pow2(1) == 2
    ensures m >= 9 ==> Pow2(m - 8) == 2 * Pow2(m - 9)
    ensures Pow2(0) == 1
  {
  }

  /** The locators of a chain reach genesis exactly if its tip is at most 2^22 + 8. */
  lemma {:induction false} LocatorsReachGenesis(chain: seq<Block>, locators: seq<Hash256>)
    requires chain != [] && IsLocators(chain, locators)
    ensures LocatorIndex(|chain| - 1, |locators| - 1) == 0 <==> |chain| - 1 <= 0x40_0008
  {
    hide Pow2, BlockHash;
    assert Pow2(22) == 0x40_0000 by {
      Pow2Values();
      assert Pow2(6) == 64 by { SixBits(); }
      Pow2Add(16, 6);
    }
    DistanceMonotone(|locators| - 1, 31);
  }

  lemma {:induction false} SixBits()
    ensures Pow2(6) == 64
  {
  }

  lemma {:induction false} DistanceMonotone(a: nat, b: nat)
    requires a <= b
    ensures Distance(a) <= Distance(b)
    decreases b - a
  {
    if a < b {
      DistanceStep(a);
      DistanceMonotone(a + 1, b);
    }
  }

  // ----- The reply -----

  /** Index of the first locator, in list order, that the chain has. */
  function FirstKnown(chain: seq<Block>, locators: seq<Hash256>): (r: Option<nat>)
    ensures r.Some? ==> r.value < |chain| && exists m :: 0 <= m < |locators| && locators[m] == BlockHash(chain[r.value])
    ensures r.None? ==> forall m :: 0 <= m < |locators| ==> FirstWithHash(chain, locators[m]) == |chain|
  {
    if locators == [] then None
    else
      var i := FirstWithHash(chain, locators[0]);
      if i < |chain| then Some(i) else FirstKnown(chain, locators[1..])
  }

  function HeadersOf(blocks: seq<Block>): seq<BlockHeader> {
    seq(|blocks|, i requires 0 <= i < |blocks| => blocks[i].header)
  }

  function HashesOf(blocks: seq<Block>): seq<Hash256> {
    seq(|blocks|, i requires 0 <= i < |blocks| => BlockHash(blocks[i]))
  }

  /** The headers that follow the first known locator, at most 2000; none if nothing is known. */
  function HeadersReply(chain: seq<Block>, locators: seq<Hash256>): seq<BlockHeader> {
    match FirstKnown(chain, locators)
    case None => []
    case Some(i) =>
      var end := if |chain| - (i + 1) <= MAX_HEADERS then |chain| else i + 1 + MAX_HEADERS;
      HeadersOf(chain[i + 1..end])
  }

  /** The headers from a position on, at most 2000. */
  method CollectHeaders(chain: seq<Block>, start: nat) returns (headers: seq<BlockHeader>)
    requires start <= |chain|
    ensures headers ==
      HeadersOf(chain[start..if |chain| - start <= MAX_HEADERS then |chain| else start + MAX_HEADERS])
  {
    headers := [];
    var available := |chain| - start;
    var count := if available < MAX_HEADERS then available else MAX_HEADERS;
    for j := start to start + count
      invariant headers == HeadersOf(chain[start..j])
    {
      assert chain[start..j + 1] == chain[start..j] + [chain[j]];
      headers := headers + [chain[j].header];
    }
  }

  /** handle_get_headers, once the payload is parsed. */
  method HandleGetHeaders(chain: seq<Block>, locators: seq<Hash256>) returns (headers: seq<BlockHeader>)
    ensures headers == HeadersReply(chain, locators)
  {
    hide BlockHash, FirstWithHash, HeadersOf;
    headers := [];
    var k := 0;
    while k < |locators|
      invariant 0 <= k <= |locators| && FirstKnown(chain, locators) == FirstKnown(chain, locators[k..])
    {
      assert locators[k..][0] == locators[k] && locators[k..][1..] == locators[k + 1..];
      var i := FindHash(chain, locators[k]);
      if i < |chain| {
        headers := CollectHeaders(chain, i + 1);
        return;
      }
      k := k + 1;
    }
    assert locators[k..] == [];
  }

  lemma {:induction false} FirstKnownIs(chain: seq<Block>, locators: seq<Hash256>, m: nat)
    requires m < |locators| && FirstWithHash(chain, locators[m]) < |chain|
    requires forall k :: 0 <= k < m ==> FirstWithHash(chain, locators[k]) == |chain|
    ensures FirstKnown(chain, locators) == Some(FirstWithHash(chain, locators[m]))
  {
    hide FirstWithHash;
    if m > 0 {
      FirstKnownIs(chain, locators[1..], m - 1);
    }
  }

  lemma {:induction false} ReplyFrom(chain: seq<Block>, locators: seq<Hash256>, i: nat)
    requires i < |chain| && FirstKnown(chain, locators) == Some(i)
    ensures var reply := HeadersReply(chain, locators);
      && |reply| == (if |chain| - (i + 1) <= 2000 then |chain| - (i + 1) else 2000)
      && forall k :: 0 <= k < |reply| ==> reply[k] == chain[i + 1 + k].header
  {
    hide FirstKnown, FirstWithHash, BlockHash, HeadersOf;
    var end := if |chain| - (i + 1) <= 2000 then |chain| else i + 1 + 2000;
    HeadersAt(chain, i + 1, end);
  }

  lemma {:induction false} HeadersAt(chain: seq<Block>, start: nat, end: nat)
    requires start <= end <= |chain|
    ensures |HeadersOf(chain[start..end])| == end - start
    ensures forall k :: 0 <= k < end - start ==> HeadersOf(chain[start..end])[k] == chain[start + k].header
  {
  }

  /** The reply goes on from the first locator in the list that the chain has, up to 2000 headers or the tip. */
  lemma {:induction false} ReplyIs(chain: seq<Block>, locators: seq<Hash256>, m: nat)
    requires m < |locators| && FirstWithHash(chain, locators[m]) < |chain|
    requires forall k :: 0 <= k < m ==> FirstWithHash(chain, locators[k]) == |chain|
    ensures var start, reply := FirstWithHash(chain, locators[m]) + 1, HeadersReply(chain, locators);
      && |reply| == (if |chain| - start <= 2000 then |chain| - start else 2000)
      && forall k :: 0 <= k < |reply| ==> reply[k] == chain[start + k].header
  {
    hide FirstWithHash, FirstKnown, BlockHash, HeadersReply;
    FirstKnownIs(chain, locators, m);
    ReplyFrom(chain, locators, FirstWithHash(chain, locators[m]));
  }

  // ----- Serving blocks -----

  predicate Has(chain: seq<Block>, hash: Hash256) { FirstWithHash(chain, hash) < |chain| }

  /** The hash index that GetBlocks and GetSyncBlocks look up; the first block with a hash counts. */
  method IndexByHash(chain: seq<Block>) returns (index: map<Hash256, nat>)
    ensures forall h :: h in index <==> Has(chain, h)
    ensures forall h :: h in index ==> index[h] == FirstWithHash(chain, h)
  {
    hide BlockHash, FirstWithHash;
    index := map[];
    for i := 0 to |chain|
      invariant forall h :: h in index <==> exists j :: 0 <= j < i && BlockHash(chain[j]) == h
      invariant forall h :: h in index ==> index[h] == FirstWithHash(chain, h) < i
    {
      if BlockHash(chain[i]) !in index {
        index := index[BlockHash(chain[i]) := i];
      }
    }
  }

  /** The blocks of the chain with the requested hashes, in the order asked: how GetBlocks is
      answered. Unknown hashes are passed over. */
  function KnownBlocks(chain: seq<Block>, hashes: seq<Hash256>): seq<Block> {
    if hashes == [] then []
    else
      var front := KnownBlocks(chain, hashes[..|hashes| - 1]);
      var i := FirstWithHash(chain, hashes[|hashes| - 1]);
      if i == |chain| then front else front + [chain[i]]
  }

  /** How GetSyncBlocks is answered: all or, as soon as one is missing, none (an abort). */
  function BlocksByHash(chain: seq<Block>, hashes: seq<Hash256>): Option<seq<Block>> {
    if forall h :: h in hashes ==> Has(chain, h) then Some(KnownBlocks(chain, hashes)) else None
  }

  lemma {:induction false} KnownInOrder(chain: seq<Block>, hashes: seq<Hash256>)
    requires forall h :: h in hashes ==> Has(chain, h)
    ensures |KnownBlocks(chain, hashes)| == |hashes|
    ensures forall k :: 0 <= k < |hashes| ==>
      Has(chain, hashes[k]) && KnownBlocks(chain, hashes)[k] == chain[FirstWithHash(chain, hashes[k])]
  {
    hide FirstWithHash;
    if hashes != [] {
      var front, last := hashes[..|hashes| - 1], hashes[|hashes| - 1];
      assert hashes == front + [last] && last in hashes && forall h :: h in front ==> h in hashes;
      KnownInOrder(chain, front);
    }
  }

  /** Every requested block in the order asked, or an abort exactly if one of them is unknown. */
  lemma {:induction false} ServedIff(chain: seq<Block>, hashes: seq<Hash256>)
    ensures var answer := BlocksByHash(chain, hashes);
      && (answer.None? <==> exists h :: h in hashes && FirstWithHash(chain, h) == |chain|)
      && (answer.Some? ==>
            && |answer.value| == |hashes|
            && forall k :: 0 <= k < |hashes| ==> BlockHash(answer.value[k]) == hashes[k])
  {
    hide FirstWithHash, BlockHash;
    if forall h :: h in hashes ==> Has(chain, h) {
      KnownInOrder(chain, hashes);
      assert forall k :: 0 <= k < |hashes| ==> Has(chain, hashes[k]);
    }
  }

  /** handle_get_blocks */
  method HandleGetBlocks(chain: seq<Block>, hashes: seq<Hash256>) returns (blocks: seq<Block>)
    ensures blocks == KnownBlocks(chain, hashes)
  {
    hide BlockHash, FirstWithHash;
    var index := IndexByHash(chain);
    blocks := [];
    for k := 0 to |hashes|
      invariant blocks == KnownBlocks(chain, hashes[..k])
    {
      assert hashes[..k + 1][..k] == hashes[..k];
      if hashes[k] in index {
        blocks := blocks + [chain[index[hashes[k]]]];
      }
    }
    assert hashes[..|hashes|] == hashes;
  }

  lemma {:induction false} NoneKnown(chain: seq<Block>)
    ensures KnownBlocks(chain, []) == []
  {
  }

  lemma {:induction false} KnownStep(chain: seq<Block>, hashes: seq<Hash256>, k: nat)
    requires k < |hashes|
    ensures var i := FirstWithHash(chain, hashes[k]);
      KnownBlocks(chain, hashes[..k + 1]) ==
        KnownBlocks(chain, hashes[..k]) + if i == |chain| then [] else [chain[i]]
  {
    hide FirstWithHash;
    assert hashes[..k + 1][..k] == hashes[..k];
  }

  /** handle_get_sync_blocks, up to the split of the answer into frames. */
  method HandleGetSyncBlocks(chain: seq<Block>, hashes: seq<Hash256>) returns (blocks: Option<seq<Block>>)
    ensures blocks == BlocksByHash(chain, hashes)
  {
    hide BlockHash, FirstWithHash, KnownBlocks;
    var index := IndexByHash(chain);
    var requested: seq<Block> := [];
    assert KnownBlocks(chain, hashes[..0]) == [] by { NoneKnown(chain); }
    for k := 0 to |hashes|
      invariant requested == KnownBlocks(chain, hashes[..k])
      invariant forall i :: 0 <= i < k ==> Has(chain, hashes[i])
    {
      KnownStep(chain, hashes, k);
      if hashes[k] !in index {
        assert hashes[k] in hashes && !Has(chain, hashes[k]);
        return None;
      }
      requested := requested + [chain[index[hashes[k]]]];
    }
    assert hashes[..|hashes|] == hashes;
    blocks := Some(requested);
  }

  /** Asking a chain for its own blocks by hash gives exactly those blocks, provided no two of its
      blocks share a hash. */
  lemma {:induction false} ServedExactly(chain: seq<Block>, blocks: seq<Block>)
    requires forall b :: b in blocks ==> b in chain
    requires forall x, y :: x in chain && y in chain && BlockHash(x) == BlockHash(y) ==> x == y
    ensures KnownBlocks(chain, HashesOf(blocks)) == blocks
    ensures BlocksByHash(chain, HashesOf(blocks)) == Some(blocks)
  {
    hide BlockHash, FirstWithHash;
    forall b | b in blocks ensures Has(chain, BlockHash(b)) {
      FoundByHash(chain, b);
    }
    if blocks != [] {
      var front, last := blocks[..|blocks| - 1], blocks[|blocks| - 1];
      ServedExactly(chain, front);
      FoundByHash(chain, last);
      assert HashesOf(blocks)[..|blocks| - 1] == HashesOf(front);
      assert blocks == front + [last];
    }
  }

  lemma {:induction false} FoundByHash(chain: seq<Block>, b: Block)
    requires b in chain
    requires forall x, y :: x in chain && y in chain && BlockHash(x) == BlockHash(y) ==> x == y
    ensures Has(chain, BlockHash(b)) && chain[FirstWithHash(chain, BlockHash(b))] == b
  {
    hide BlockHash, FirstWithHash;
    var j :| 0 <= j < |chain| && chain[j] == b;
    var i := FirstWithHash(chain, BlockHash(b));
    assert i <= j;
    assert chain[i] in chain;
  }
}
