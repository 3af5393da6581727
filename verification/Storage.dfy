/** The blockchain file (blockchain_storage.hpp). The file is a byte string or absent; a save is one atomic step. */
module Storage {
  import opened Types
  import opened Serialization
  import opened TransactionCodec
  import opened BlockCodec
  import opened BinaryIo
  import opened Consensus
  import opened Rules
  import opened ChainValidator
  import opened ChainFacts

  const MAGIC := 0x435A_5231
  const FORMAT_VERSION := 1
  const MAX_BLOCKS := 10_000_000
  const MAX_BLOCK_BYTES := 16 * 1024 * 1024

  /** write_block refuses any other block. */
  predicate Storable(b: Block) {
    Encodable(b) && 0 < |EncodeBlock(b)| <= MAX_BLOCK_BYTES
  }

  /** A size, the block, and a checksum of the block. */
  function PutStored(b: Block, rest: Bytes): Bytes {
    var data := EncodeBlock(b);
    PutInt(|data|, 4, data + (Sha256(data) + rest))
  }

  function TakeStored(s: Bytes): Parsed<Block> {
    var (n, r1) :- TakeInt(s, 4);
    if n == 0 || n > MAX_BLOCK_BYTES then Truncated
    else
      var (data, r2) :- TakeBytes(r1, n);
      var (checksum, r3) :- TakeHash(r2);
      if checksum != Sha256(data) then Truncated
      else
        match DecodeBlock(data)
        case None => Truncated
        case Some(b) => Parsed(b, r3)
  }

  function PutPreamble(count: nat, rest: Bytes): Bytes {
    PutInt(MAGIC, 4, PutInt(FORMAT_VERSION, 4, PutInt(count, 8, rest)))
  }

  function TakePreamble(s: Bytes): Parsed<nat> {
    var (magic, r1) :- TakeInt(s, 4);
    var (version, r2) :- TakeInt(r1, 4);
    var (count, r3) :- TakeInt(r2, 8);
    if magic != MAGIC || version != FORMAT_VERSION || count == 0 || count > MAX_BLOCKS then Truncated
    else Parsed(count, r3)
  }

  function EncodeFile(chain: seq<Block>): Bytes {
    PutPreamble(|chain|, PutMany(chain, PutStored, []))
  }

  function DecodeFile(s: Bytes): Option<seq<Block>> {
    match TakePreamble(s)
    case Truncated => None
    case Parsed(count, r) =>
      match TakeMany(r, count, TakeStored)
      case Truncated => None
      case Parsed(chain, r') => if r' == [] && Valid(chain) then Some(chain) else None
  }

  /** What `save` accepts. */
  predicate Savable(chain: seq<Block>) {
    Valid(chain) && forall b :: b in chain ==> Storable(b)
  }

  /** What `load` can return. */
  predicate Loadable(chain: seq<Block>) {
    Savable(chain) && |chain| <= MAX_BLOCKS && forall b :: b in chain ==> BlockWithinCaps(b)
  }

  // ----- Round trips -----

  lemma {:induction false} StoredRoundTrip(b: Block, rest: Bytes)
    requires Storable(b) && BlockWithinCaps(b)
    ensures TakeStored(PutStored(b, rest)) == Parsed(b, rest)
  {
    hide EncodeBlock, DecodeBlock, BlockWithinCaps, Encodable, PutInt, TakeInt;
    var data := EncodeBlock(b);
    BlockRoundTrip(b);
    Pow256Values();
    TakePutInt(|data|, 4, data + (Sha256(data) + rest));
    TakePutHash(Sha256(data), rest);
  }

  lemma {:induction false} StoredInverse(s: Bytes)
    requires TakeStored(s).Parsed?
    ensures var p := TakeStored(s);
      s == PutStored(p.value, p.rest) && Storable(p.value) && BlockWithinCaps(p.value)
  {
    hide EncodeBlock, DecodeBlock, BlockWithinCaps, Encodable, PutInt, TakeInt;
    PutTakeInt(s, 4);
    var n := TakeInt(s, 4);
    var data := n.rest[..n.value];
    var after := n.rest[n.value..];
    BlockInverse(data);
    PutTakeHash(after);
    assert n.rest == data + after;
    CapsEncodable(TakeStored(s).value);
  }

  lemma {:induction false} CapsEncodable(b: Block)
    requires BlockWithinCaps(b)
    ensures Encodable(b)
  {
  }

  lemma {:induction false} PreambleRoundTrip(count: nat, rest: Bytes)
    requires count <= MAX_BLOCKS
    ensures TakePreamble(PutPreamble(count, rest)) == if count == 0 then Truncated else Parsed(count, rest)
  {
    hide PutInt, TakeInt;
    Pow256Values();
    TakePutInt(MAGIC, 4, PutInt(FORMAT_VERSION, 4, PutInt(count, 8, rest)));
    TakePutInt(FORMAT_VERSION, 4, PutInt(count, 8, rest));
    TakePutInt(count, 8, rest);
  }

  lemma {:induction false} PreambleInverse(s: Bytes)
    requires TakePreamble(s).Parsed?
    ensures var p := TakePreamble(s); s == PutPreamble(p.value, p.rest) && 0 < p.value <= MAX_BLOCKS
  {
    hide PutInt, TakeInt;
    PutTakeInt(s, 4);
    var r1 := TakeInt(s, 4).rest;
    PutTakeInt(r1, 4);
    PutTakeInt(TakeInt(r1, 4).rest, 8);
  }

  /** Whatever loads is the encoding of the chain it loads to: a changed byte is always noticed, unless it makes the
      file the exact encoding of another valid chain. */
  lemma {:induction false} FileInverse(s: Bytes)
    requires DecodeFile(s).Some?
    ensures var chain := DecodeFile(s).value; s == EncodeFile(chain) && Loadable(chain)
  {
    hide PutStored, TakeStored, Storable, BlockWithinCaps, PutPreamble, TakePreamble, Rebuild;
    PreambleInverse(s);
    var p := TakePreamble(s);
    forall r | TakeStored(r).Parsed?
      ensures r == PutStored(TakeStored(r).value, TakeStored(r).rest)
      ensures Storable(TakeStored(r).value) && BlockWithinCaps(TakeStored(r).value)
    {
      StoredInverse(r);
    }
    PutTakeMany(p.rest, p.value, PutStored, TakeStored);
  }

  lemma {:induction false} FileRoundTrip(chain: seq<Block>)
    requires Loadable(chain)
    ensures DecodeFile(EncodeFile(chain)) == Some(chain)
  {
    hide PutStored, TakeStored, Storable, BlockWithinCaps, PutPreamble, TakePreamble, Rebuild;
    TipHeight(chain);
    PreambleRoundTrip(|chain|, PutMany(chain, PutStored, []));
    forall b, r | b in chain ensures TakeStored(PutStored(b, r)) == Parsed(b, r) {
      StoredRoundTrip(b, r);
    }
    TakePutMany(chain, PutStored, TakeStored, []);
  }

  // ----- Writing and reading in loops -----

  lemma {:induction false} StoredAppend(b: Block, x: Bytes, y: Bytes)
    ensures PutStored(b, x + y) == PutStored(b, x) + y
  {
    hide EncodeBlock, PutInt;
    var data := EncodeBlock(b);
    PutIntAppend(|data|, 4, data + (Sha256(data) + x), y);
    assert data + (Sha256(data) + (x + y)) == data + (Sha256(data) + x) + y;
  }

  lemma {:induction false} BlocksStep(blocks: seq<Block>, i: nat)
    requires i < |blocks|
    ensures PutMany(blocks[..i + 1], PutStored, []) == PutMany(blocks[..i], PutStored, []) + PutStored(blocks[i], [])
  {
    hide PutStored;
    forall b, r ensures PutStored(b, r) == PutStored(b, []) + r {
      StoredAppend(b, [], r);
      assert [] + r == r;
    }
    ManyLast(blocks[..i], blocks[i], PutStored);
    assert blocks[..i + 1] == blocks[..i] + [blocks[i]];
  }

  lemma {:induction false} PreambleAppend(count: nat, x: Bytes)
    ensures PutPreamble(count, x) == PutPreamble(count, []) + x
  {
    hide PutInt;
    assert x == [] + x;
    PutIntAppend(count, 8, [], x);
    PutIntAppend(FORMAT_VERSION, 4, PutInt(count, 8, []), x);
    PutIntAppend(MAGIC, 4, PutInt(FORMAT_VERSION, 4, PutInt(count, 8, [])), x);
  }

  /** The temporary file of `save`. */
  method WriteFile(chain: seq<Block>) returns (out: Option<Bytes>)
    ensures out.Some? <==> forall b :: b in chain ==> Storable(b)
    ensures out.Some? ==> out.value == EncodeFile(chain)
  {
    hide PutStored, Storable, PutPreamble;
    var file := PutPreamble(|chain|, []);
    for i := 0 to |chain|
      invariant forall j :: 0 <= j < i ==> Storable(chain[j])
      invariant file == PutPreamble(|chain|, []) + PutMany(chain[..i], PutStored, [])
    {
      if !Storable(chain[i]) {
        assert chain[i] in chain;
        return None;
      }
      BlocksStep(chain, i);
      file := file + PutStored(chain[i], []);
    }
    assert chain[..|chain|] == chain;
    PreambleAppend(|chain|, PutMany(chain, PutStored, []));
    out := Some(file);
  }

  /** The blocks that `load` reads before it validates them. */
  method ReadFile(file: Bytes) returns (chain: Option<seq<Block>>)
    ensures chain.Some? && Valid(chain.value) ==> DecodeFile(file) == chain
    ensures chain.None? || !Valid(chain.value) ==> DecodeFile(file) == None
  {
    hide TakeStored, TakePreamble, Rebuild, TakeMany, Reading;
    var preamble := TakePreamble(file);
    if preamble.Truncated? {
      return None;
    }
    var count, rest := preamble.value, preamble.rest;
    var blocks: seq<Block> := [];
    ReadingStarts(rest, count, TakeStored);
    for i := 0 to count
      invariant Reading(preamble.rest, count, TakeStored, blocks, rest, count - i)
    {
      ReadingStep(preamble.rest, count, TakeStored, blocks, rest, count - i);
      var next := TakeStored(rest);
      if next.Truncated? {
        return None;
      }
      blocks := blocks + [next.value];
      rest := next.rest;
    }
    ReadingEnds(preamble.rest, count, TakeStored, blocks, rest);
    chain := if rest == [] then Some(blocks) else None;
  }

  class BlockchainStorage {
    var file: Option<Bytes>

    constructor ()
      ensures file.None?
    {
      file := None;
    }

    /** A refused chain leaves the file as it was. */
    method Save(chain: seq<Block>) returns (ok: bool)
      modifies this
      ensures ok <==> Savable(chain)
      ensures file == if ok then Some(EncodeFile(chain)) else old(file)
    {
      hide EncodeFile, Storable, Rebuild;
      if chain == [] {
        EmptyInvalid();
        return false;
      }
      var rebuilt := ValidateAndRebuildChain(chain);
      var out := WriteFile(chain);
      ok := rebuilt.Some? && out.Some?;
      if ok {
        file := out;
      }
    }

    method Load() returns (chain: Option<seq<Block>>)
      ensures chain == if file.None? then None else DecodeFile(file.value)
    {
      hide DecodeFile, Rebuild;
      if file.None? {
        return None;
      }
      chain := ReadFile(file.value);
      if chain.Some? {
        var rebuilt := ValidateAndRebuildChain(chain.value);
        if rebuilt.None? {
          chain := None;
        }
      }
    }

    /** append. A block is stored exactly if the longer chain can be saved, in the short-chain branch
        as in the other; a file that does not load accepts nothing. */
    method Append(b: Block) returns (ok: bool)
      modifies this
      ensures var chain := if old(file).None? then Some([]) else DecodeFile(old(file).value);
        && (ok <==> chain.Some? && Savable(chain.value + [b]))
        && file == if ok then Some(EncodeFile(chain.value + [b])) else old(file)
    {
      hide EncodeFile, DecodeFile, Storable, Rebuild, BlockConsensusOk, BasicOk, Follows, HeaderHash;
      if file.None? {
        FirstIsBasic(b);
        assert [] + [b] == [b];
        if !BasicOk(b) {
          return false;
        }
        ok := Save([b]);
        return;
      }
      var loaded := Load();
      if loaded.None? {
        return false;
      }
      var chain := loaded.value;
      LoadsValid(file.value);
      TipHeight(chain);
      NextIsBasic(chain, b);
      ConsensusIffValid(chain, b);
      if !Follows(chain, b) {
        return false;
      }
      if |chain| < DIFFICULTY_WINDOW + 1 {
        if !BasicOk(b) {
          return false;
        }
      } else {
        var rebuilt := ValidateAndRebuildChain(chain);
        var accepted := ValidateBlockConsensus(b, chain, rebuilt.value.utxo);
        if !accepted {
          return false;
        }
      }
      ok := Save(chain + [b]);
    }
  }

  lemma {:induction false} EmptyInvalid()
    ensures !Valid([])
  {
  }

  lemma {:induction false} FirstIsBasic(b: Block)
    ensures Valid([b]) ==> BasicOk(b)
  {
  }

  lemma {:induction false} LoadsValid(s: Bytes)
    ensures DecodeFile(s).Some? ==> Valid(DecodeFile(s).value)
  {
  }

  lemma {:induction false} NextIsBasic(chain: seq<Block>, b: Block)
    requires Valid(chain) && chain != []
    ensures Valid(chain + [b]) ==> BasicOk(b) && Follows(chain, b)
  {
    hide Rebuild, BasicOk, Follows, Issue, ApplyBlock;
    ExtendsValid(chain, b);
  }

  /** A chain that was stored stays loadable when a block that came through the decoder is appended, as
      long as there is room. */
  lemma {:induction false} AppendKeepsLoadable(chain: seq<Block>, b: Block)
    requires Loadable(chain) && Savable(chain + [b])
    ensures Loadable(chain + [b]) <==> |chain| < MAX_BLOCKS && BlockWithinCaps(b)
  {
    hide Rebuild, Storable, BlockWithinCaps;
    assert b in chain + [b];
    assert forall x :: x in chain ==> x in chain + [b];
  }

  // ----- Saving is injective -----

  lemma {:induction false} SizedTxPrefix(x: Transaction, y: Transaction, r: Bytes, r': Bytes)
    requires |Encode(x)| <= MAX_U32 && |Encode(y)| <= MAX_U32
    requires PutSizedTx(x, r) == PutSizedTx(y, r')
    ensures x == y && r == r'
  {
    hide Encode, PutInt, TakeInt;
    Pow256Values();
    var a, b := Encode(x), Encode(y);
    TakePutInt(|a|, 4, a + r);
    TakePutInt(|b|, 4, b + r');
    assert (a + r)[..|a|] == a && (b + r')[..|b|] == b;
    assert (a + r)[|a|..] == r && (b + r')[|b|..] == r';
    EncodeInjective(x, y);
  }

  lemma {:induction false} SizedTxsPrefix(xs: seq<Transaction>, ys: seq<Transaction>)
    requires |xs| == |ys| && forall tx :: tx in xs || tx in ys ==> |Encode(tx)| <= MAX_U32
    requires PutMany(xs, PutSizedTx, []) == PutMany(ys, PutSizedTx, [])
    ensures xs == ys
  {
    hide Encode, PutSizedTx;
    if xs != [] {
      SizedTxPrefix(xs[0], ys[0], PutMany(xs[1..], PutSizedTx, []), PutMany(ys[1..], PutSizedTx, []));
      SizedTxsPrefix(xs[1..], ys[1..]);
      assert xs == [xs[0]] + xs[1..] && ys == [ys[0]] + ys[1..];
    }
  }

  lemma {:induction false} EncodeBlockInjective(a: Block, b: Block)
    requires Encodable(a) && Encodable(b) && EncodeBlock(a) == EncodeBlock(b)
    ensures a == b
  {
    hide Encode, PutSizedTx, PutHeader, TakeHeader, PutInt, TakeInt, PutMany;
    Pow256Values();
    var x, y := PutMany(a.transactions, PutSizedTx, []), PutMany(b.transactions, PutSizedTx, []);
    HeaderRoundTrip(a.header, PutInt(|a.transactions|, 4, x));
    HeaderRoundTrip(b.header, PutInt(|b.transactions|, 4, y));
    TakePutInt(|a.transactions|, 4, x);
    TakePutInt(|b.transactions|, 4, y);
    SizedTxsPrefix(a.transactions, b.transactions);
  }

  lemma {:induction false} StoredPrefix(a: Block, b: Block, r: Bytes, r': Bytes)
    requires Storable(a) && Storable(b) && PutStored(a, r) == PutStored(b, r')
    ensures a == b && r == r'
  {
    hide EncodeBlock, Encodable, PutInt, TakeInt;
    Pow256Values();
    var x, y := EncodeBlock(a), EncodeBlock(b);
    TakePutInt(|x|, 4, x + (Sha256(x) + r));
    TakePutInt(|y|, 4, y + (Sha256(y) + r'));
    assert (x + (Sha256(x) + r))[..|x|] == x && (y + (Sha256(y) + r'))[..|y|] == y;
    EncodeBlockInjective(a, b);
    assert (Sha256(x) + r)[32..] == r && (Sha256(x) + r')[32..] == r';
    assert (x + (Sha256(x) + r))[|x|..] == Sha256(x) + r && (x + (Sha256(x) + r'))[|x|..] == Sha256(x) + r';
  }

  lemma {:induction false} StoredNotEmpty(b: Block, rest: Bytes)
    ensures PutStored(b, rest) != []
  {
    hide EncodeBlock;
  }

  lemma {:induction false} BodyInjective(a: seq<Block>, b: seq<Block>)
    requires forall x :: x in a || x in b ==> Storable(x)
    requires PutMany(a, PutStored, []) == PutMany(b, PutStored, [])
    ensures a == b
  {
    hide PutStored, Storable;
    if a != [] {
      StoredNotEmpty(a[0], PutMany(a[1..], PutStored, []));
    }
    if b != [] {
      StoredNotEmpty(b[0], PutMany(b[1..], PutStored, []));
    }
    if a != [] && b != [] {
      StoredPrefix(a[0], b[0], PutMany(a[1..], PutStored, []), PutMany(b[1..], PutStored, []));
      BodyInjective(a[1..], b[1..]);
      assert a == [a[0]] + a[1..] && b == [b[0]] + b[1..];
    }
  }

  lemma {:induction false} PreambleLength(count: nat)
    ensures |PutPreamble(count, [])| == 16
  {
    hide PutInt;
    PutIntLength(count, 8, []);
    PutIntLength(FORMAT_VERSION, 4, PutInt(count, 8, []));
    PutIntLength(MAGIC, 4, PutInt(FORMAT_VERSION, 4, PutInt(count, 8, [])));
  }

  /** A file is the save of at most one chain. */
  lemma {:induction false} SavedChainUnique(a: seq<Block>, b: seq<Block>)
    requires Savable(a) && Savable(b) && EncodeFile(a) == EncodeFile(b)
    ensures a == b
  {
    hide PutPreamble, PutMany, Storable, Rebuild;
    var x, y := PutMany(a, PutStored, []), PutMany(b, PutStored, []);
    PreambleAppend(|a|, x);
    PreambleAppend(|b|, y);
    PreambleLength(|a|);
    PreambleLength(|b|);
    assert (PutPreamble(|a|, []) + x)[16..] == x && (PutPreamble(|b|, []) + y)[16..] == y;
    BodyInjective(a, b);
  }

  /** A saved chain loads back exactly if it has at most ten million blocks and its blocks are within the decoder's
      limits; `save` checks neither. Otherwise nothing loads. */
  lemma {:induction false} LoadAfterSave(chain: seq<Block>)
    requires Savable(chain)
    ensures DecodeFile(EncodeFile(chain)) ==
      if |chain| <= MAX_BLOCKS && forall b :: b in chain ==> BlockWithinCaps(b) then Some(chain) else None
  {
    hide EncodeFile, DecodeFile, Savable, BlockWithinCaps;
    if Loadable(chain) {
      FileRoundTrip(chain);
    } else if DecodeFile(EncodeFile(chain)).Some? {
      FileInverse(EncodeFile(chain));
      SavedChainUnique(DecodeFile(EncodeFile(chain)).value, chain);
      assert false;
    }
  }
}
