/** Proof of work, difficulty and issuance of every valid chain, in numbers (consensus.hpp, block.hpp, coinbase.hpp). */
module Schedule {
  import opened Types
  import opened BlockCodec
  import opened Consensus
  import opened Coinbase
  import opened Rules
  import opened ChainValidator
  import opened ChainFacts

  // ----- Proof of work -----

  /** Every block of a valid chain carries its work: the hash of its header is below the target of its difficulty. */
  lemma {:induction false} WorkProven(chain: seq<Block>, i: nat)
    requires Valid(chain) && 0 < i < |chain|
    ensures var h := chain[i].header;
      h.difficulty <= 256 && BigEndian(PowHash(EncodeHeader(h.(nonce := 0)), h.nonce)) < Pow2(256 - h.difficulty)
  {
    hide Rebuild, BigEndian, Pow2, EncodeHeader, ApplyBlock, Issue, Follows, HeaderPowOk, RootsOk, TxValid,
      CoinbasePlacementOk, GenesisTxOk;
    BlockAt(chain, i);
    HeaderPowIsTarget(chain[i].header);
  }

  // ----- Difficulty -----

  /** The difficulty the next block needs, where the rule fixes it: 12 for the first eleven blocks, 13 for eleven from
      height 19, 8 from height 40. */
  lemma {:induction false} NextDifficultyFixed(chain: seq<Block>)
    requires Valid(chain)
    ensures 1 <= |chain| <= 11 ==> ExpectedDifficulty(chain, |chain|) == 12
    ensures 19 <= |chain| <= 29 ==> ExpectedDifficulty(chain, |chain|) == 13
    ensures 40 <= |chain| ==> ExpectedDifficulty(chain, |chain|) == 8
  {
    hide Rebuild, BasicOk, Issue, ApplyBlock;
    TipHeight(chain);
    if |chain| == 1 {
      GenesisOnly(chain);
    } else if |chain| <= 11 {
      LastBlock(chain);
      NextDifficultyFixed(chain[..|chain| - 1]);
    }
  }

  /** Times never go back along a valid chain. */
  lemma {:induction false} TimesRise(chain: seq<Block>, i: nat)
    requires Valid(chain) && 0 < i < |chain|
    ensures chain[i - 1].header.timestamp <= chain[i].header.timestamp
  {
    hide Rebuild, BasicOk, Issue, ApplyBlock, ExpectedDifficulty;
    BlockAt(chain, i);
  }

  lemma {:induction false} AllTimesAscend(chain: seq<Block>)
    requires Valid(chain) && 12 <= |chain|
    ensures TimesAscend(chain, |chain|)
  {
    hide Rebuild;
    forall i | |chain| - 11 <= i < |chain| ensures chain[i - 1].header.timestamp <= chain[i].header.timestamp {
      TimesRise(chain, i);
    }
  }

  /** The difficulty the next block needs otherwise: a step up or down from the last one, by the sixth of the last
      eleven gaps between block times in order of size. */
  lemma {:induction false} NextDifficultyMoves(chain: seq<Block>) returns (gaps: seq<u64>, sorted: seq<u64>)
    requires Valid(chain) && (12 <= |chain| <= 18 || 30 <= |chain| <= 39)
    ensures |gaps| == 11 == |sorted|
    ensures forall k :: 0 <= k < 11 ==>
      gaps[k] == chain[|chain| - 11 + k].header.timestamp - chain[|chain| - 12 + k].header.timestamp
    ensures multiset(sorted) == multiset(gaps) && forall j, k :: 0 <= j < k < 11 ==> sorted[j] <= sorted[k]
    ensures var last, next := chain[|chain| - 1].header.difficulty, ExpectedDifficulty(chain, |chain|);
      && (sorted[5] <= 30 ==> next == last + 2)
      && (30 < sorted[5] <= 60 ==> next == last + 1)
      && (60 < sorted[5] < 240 ==> next == last)
      && (240 <= sorted[5] < 480 ==> next == if last > 8 then last - 1 else 8)
      && (480 <= sorted[5] ==> next == if last > 10 then last - 2 else 8)
  {
    hide Rebuild, Sort, AdjustDifficulty;
    AllTimesAscend(chain);
    TipHeight(chain);
    DifficultyBounded(chain, |chain| - 1);
    gaps := Intervals(chain, |chain|);
    sorted := Sort(gaps);
    SortSorts(gaps);
    AdjustIsRetarget(chain[|chain| - 1].header.difficulty, gaps);
  }

  /** The same of the blocks of a chain: where the difficulty is fixed. */
  lemma {:induction false} DifficultyFixed(chain: seq<Block>, i: nat)
    requires Valid(chain) && 0 < i < |chain|
    ensures 1 <= i <= 11 ==> chain[i].header.difficulty == 12
    ensures 19 <= i <= 29 ==> chain[i].header.difficulty == 13
    ensures 40 <= i ==> chain[i].header.difficulty == 8
  {
    hide Rebuild, BasicOk, Issue, ApplyBlock, ExpectedDifficulty;
    BlockAt(chain, i);
    NextDifficultyFixed(chain[..i]);
  }

  /** And where it moves: up if blocks were fast, down (but not below 8) if they were slow, by the median gap. */
  lemma {:induction false} DifficultyMoves(chain: seq<Block>, i: nat) returns (gaps: seq<u64>, sorted: seq<u64>)
    requires Valid(chain) && i < |chain| && (12 <= i <= 18 || 30 <= i <= 39)
    ensures |gaps| == 11 == |sorted|
    ensures forall k :: 0 <= k < 11 ==>
      gaps[k] == chain[i - 11 + k].header.timestamp - chain[i - 12 + k].header.timestamp
    ensures multiset(sorted) == multiset(gaps) && forall j, k :: 0 <= j < k < 11 ==> sorted[j] <= sorted[k]
    ensures var before, now := chain[i - 1].header.difficulty, chain[i].header.difficulty;
      && (sorted[5] <= 30 ==> now == before + 2)
      && (30 < sorted[5] <= 60 ==> now == before + 1)
      && (60 < sorted[5] < 240 ==> now == before)
      && (240 <= sorted[5] < 480 ==> now == if before > 8 then before - 1 else 8)
      && (480 <= sorted[5] ==> now == if before > 10 then before - 2 else 8)
      && (sorted[5] <= 60 ==> now > before) && (sorted[5] >= 240 && before > 8 ==> now < before)
  {
    hide Rebuild, BasicOk, Issue, ApplyBlock, ExpectedDifficulty;
    BlockAt(chain, i);
    gaps, sorted := NextDifficultyMoves(chain[..i]);
  }

  // ----- Issuance -----

  /** What a chain has issued when an era of 210000 blocks ends. */
  lemma {:induction false} EraIssued(chain: seq<Block>, k: nat)
    requires Valid(chain) && 210_000 * (k + 1) <= |chain|
    ensures 0 < 210_000 * k ==> Valid(chain[..210_000 * k])
    ensures Valid(chain[..210_000 * (k + 1)])
    ensures var end := Rebuild(chain[..210_000 * (k + 1)]).value.issued;
      end == if k == 0 then 209_999 * 5_000_000_000
             else Rebuild(chain[..210_000 * k]).value.issued + 210_000 * (5_000_000_000 / Pow2(k))
  {
    hide Rebuild, Minted, Pow2;
    var start, end := 210_000 * k, 210_000 * (k + 1);
    RebuildPrefix(chain, end);
    IssuedIsMinted(chain[..end]);
    if k == 0 {
      FirstEraMints(209_999);
    } else {
      RebuildPrefix(chain, start);
      IssuedIsMinted(chain[..start]);
      EraMints(k, 210_000);
    }
  }

  /** From 33 eras on nothing more is issued, and every chain has issued the same amount. */
  lemma {:induction false} FinalSupply(chain: seq<Block>)
    requires Valid(chain) && |chain| >= 6_930_000
    ensures Rebuild(chain).value.issued == 2_099_994_997_690_000
  {
    hide Rebuild, Minted, Eras;
    IssuedIsMinted(chain);
    ErasMint(33);
    ErasTotal();
    MintedFlat(33, |chain| - 1);
  }

  lemma {:induction false} FourEras(k: nat)
    ensures var s := Shifted(k);
      Shifted(k + 4) == s / 2 / 2 / 2 / 2 && Eras(k + 4) == Eras(k) + 210_000 * (s + s / 2 + s / 2 / 2 + s / 2 / 2 / 2)
  {
    assert Shifted(k + 2) == Shifted(k + 1) / 2 && Eras(k + 2) == Eras(k + 1) + 210_000 * Shifted(k + 1);
    assert Shifted(k + 3) == Shifted(k + 2) / 2 && Eras(k + 3) == Eras(k + 2) + 210_000 * Shifted(k + 2);
  }

  lemma {:induction false} ErasTotal()
    ensures Eras(33) == 2_099_999_997_690_000
  {
    ThirtyTwoEras();
    assert Eras(33) == Eras(32) + 210_000 * Shifted(32);
  }

  lemma {:induction false} ThirtyTwoEras()
    ensures Shifted(32) == 1 && Eras(32) == 2_099_999_997_480_000
  {
    hide Shifted, Eras;
    NoEras();
    FourEras(0);
    assert Shifted(4) == 312_500_000 && Eras(4) == 1_968_750_000_000_000;
    FourEras(4);
    assert Shifted(8) == 19_531_250 && Eras(8) == 2_091_796_875_000_000;
    FourEras(8);
    assert Shifted(12) == 1_220_703 && Eras(12) == 2_099_487_304_530_000;
    FourEras(12);
    assert Shifted(16) == 76_293 && Eras(16) == 2_099_967_955_890_000;
    FourEras(16);
    assert Shifted(20) == 4_768 && Eras(20) == 2_099_997_995_970_000;
    FourEras(20);
    assert Shifted(24) == 298 && Eras(24) == 2_099_999_873_370_000;
    FourEras(24);
    assert Shifted(28) == 18 && Eras(28) == 2_099_999_990_550_000;
    FourEras(28);
  }

  lemma {:induction false} NoEras()
    ensures Shifted(0) == 5_000_000_000 && Eras(0) == 0
  {
  }

  lemma {:induction false} MintedFlat(k: nat, height: nat)
    requires k >= 33 && 210_000 * k - 1 <= height <= MAX_U64
    ensures Minted(height) == Minted(210_000 * k - 1)
  {
    hide Subsidy, Pow2;
    if height >= 210_000 * k {
      MintedFlat(k, height - 1);
      SubsidyInEra(height / 210_000, height % 210_000);
      SpentSchedule(height / 210_000);
    }
  }
}
