/** Binary form of headers and blocks, and the block hash (block.hpp). */
module BlockCodec {
  import opened Types
  import opened Serialization
  import opened TransactionCodec

  const HEADER_BYTES := 128

  function PutHeader(h: BlockHeader, rest: Bytes): Bytes {
    PutInt(h.version, 4, PutInt(h.height, 8,
      h.previousHash + (h.merkleRoot + (h.witnessRoot +
      PutInt(h.timestamp, 8, PutInt(h.nonce, 8, PutInt(h.difficulty, 4, rest)))))))
  }

  function TakeHeader(s: Bytes): Parsed<BlockHeader> {
    var (version, r1) :- TakeInt(s, 4);
    var (height, r2) :- TakeInt(r1, 8);
    var (previousHash, r3) :- TakeHash(r2);
    var (merkleRoot, r4) :- TakeHash(r3);
    var (witnessRoot, r5) :- TakeHash(r4);
    var (timestamp, r6) :- TakeInt(r5, 8);
    var (nonce, r7) :- TakeInt(r6, 8);
    var (difficulty, r8) :- TakeInt(r7, 4);
    if version > MAX_U32 || height > MAX_U64 || timestamp > MAX_U64 || nonce > MAX_U64 || difficulty > MAX_U32
    then Truncated
    else Parsed(BlockHeader(version, height, previousHash, merkleRoot, witnessRoot, timestamp, nonce, difficulty), r8)
  }

  function EncodeHeader(h: BlockHeader): Bytes { PutHeader(h, []) }

  function HeaderHash(h: BlockHeader): Hash256 { Sha256(EncodeHeader(h)) }

  function BlockHash(b: Block): Hash256 { HeaderHash(b.header) }

  lemma {:induction false} HeaderRoundTrip(h: BlockHeader, rest: Bytes)
    ensures TakeHeader(PutHeader(h, rest)) == Parsed(h, rest)
    ensures |PutHeader(h, rest)| == HEADER_BYTES + |rest|
  {
    var r7 := PutInt(h.difficulty, 4, rest);
    var r6 := PutInt(h.nonce, 8, r7);
    var r5 := PutInt(h.timestamp, 8, r6);
    var r4 := h.witnessRoot + r5;
    var r3 := h.merkleRoot + r4;
    var r2 := h.previousHash + r3;
    var r1 := PutInt(h.height, 8, r2);
    Pow256Values();
    TakePutInt(h.version, 4, r1);    PutIntLength(h.version, 4, r1);
    TakePutInt(h.height, 8, r2);     PutIntLength(h.height, 8, r2);
    TakePutHash(h.previousHash, r3);
    TakePutHash(h.merkleRoot, r4);
    TakePutHash(h.witnessRoot, r5);
    TakePutInt(h.timestamp, 8, r6);  PutIntLength(h.timestamp, 8, r6);
    TakePutInt(h.nonce, 8, r7);      PutIntLength(h.nonce, 8, r7);
    TakePutInt(h.difficulty, 4, rest); PutIntLength(h.difficulty, 4, rest);
  }

  lemma {:induction false} HeaderInverse(s: Bytes)
    requires TakeHeader(s).Parsed?
    ensures s == PutHeader(TakeHeader(s).value, TakeHeader(s).rest)
  {
    hide TakeInt, PutInt, TakeHash;
    PutTakeInt(s, 4);
    var r1 := TakeInt(s, 4).rest;   PutTakeInt(r1, 8);
    var r2 := TakeInt(r1, 8).rest;  PutTakeHash(r2);
    var r3 := TakeHash(r2).rest;    PutTakeHash(r3);
    var r4 := TakeHash(r3).rest;    PutTakeHash(r4);
    var r5 := TakeHash(r4).rest;    PutTakeInt(r5, 8);
    var r6 := TakeInt(r5, 8).rest;  PutTakeInt(r6, 8);
    var r7 := TakeInt(r6, 8).rest;  PutTakeInt(r7, 4);
  }

  lemma {:induction false} HeaderInjective(a: BlockHeader, b: BlockHeader)
    requires EncodeHeader(a) == EncodeHeader(b)
    ensures a == b
  {
    HeaderRoundTrip(a, []);
    HeaderRoundTrip(b, []);
  }

  // ----- Blocks -----

  /** A transaction inside a block is preceded by its size. */
  function PutSizedTx(tx: Transaction, rest: Bytes): Bytes {
    PutInt(|Encode(tx)|, 4, Encode(tx) + rest)
  }

  function TakeSizedTx(s: Bytes): Parsed<Transaction> {
    var (data, r) :- TakeBlob(s, DECODER_CAP);
    match Decode(data)
    case None => Truncated
    case Some(tx) => Parsed(tx, r)
  }

  /** serialize_full_binary throws exactly when a count or a size needs more than four bytes. */
  predicate Encodable(b: Block) {
    |b.transactions| <= MAX_U32 && forall tx :: tx in b.transactions ==> |Encode(tx)| <= MAX_U32
  }

  function EncodeBlock(b: Block): Bytes {
    PutHeader(b.header, PutInt(|b.transactions|, 4, PutMany(b.transactions, PutSizedTx, [])))
  }

  function DecodeBlock(s: Bytes): Option<Block> {
    match TakeHeader(s)
    case Truncated => None
    case Parsed(header, r1) =>
      match TakeInt(r1, 4)
      case Truncated => None
      case Parsed(n, r2) =>
        if n > DECODER_CAP then None
        else
          match TakeMany(r2, n, TakeSizedTx)
          case Truncated => None
          case Parsed(txs, r3) => if r3 == [] then Some(Block(header, txs)) else None
  }

  /** The decoder's limits on a block. */
  predicate BlockWithinCaps(b: Block) {
    && |b.transactions| <= DECODER_CAP
    && forall tx :: tx in b.transactions ==> TxWithinCaps(tx)
  }

  predicate TxWithinCaps(tx: Transaction) {
    |Encode(tx)| <= DECODER_CAP && WithinCaps(tx, DECODER_CAP)
  }

  lemma {:induction false} SizedTxRoundTrip(tx: Transaction, rest: Bytes)
    requires TxWithinCaps(tx)
    ensures TakeSizedTx(PutSizedTx(tx, rest)) == Parsed(tx, rest)
  {
    assert PutSizedTx(tx, rest) == PutBlob(Encode(tx), rest);
    TakePutBlob(Encode(tx), rest, DECODER_CAP);
    CodecBijection(tx, []);
  }

  lemma {:induction false} SizedTxInverse(s: Bytes)
    requires TakeSizedTx(s).Parsed?
    ensures var p := TakeSizedTx(s);
      s == PutSizedTx(p.value, p.rest) && TxWithinCaps(p.value)
  {
    PutTakeBlob(s, DECODER_CAP);
    var p := TakeBlob(s, DECODER_CAP);
    CodecBijection(TakeSizedTx(s).value, p.value);
  }

  /** The block codec is a bijection between capped blocks and the strings that decode. */
  lemma {:induction false} BlockCodecBijection(b: Block, s: Bytes)
    ensures BlockWithinCaps(b) <==> DecodeBlock(EncodeBlock(b)) == Some(b)
    ensures DecodeBlock(s).Some? ==> s == EncodeBlock(DecodeBlock(s).value) && BlockWithinCaps(DecodeBlock(s).value)
  {
    if BlockWithinCaps(b) {
      BlockRoundTrip(b);
    }
    if DecodeBlock(EncodeBlock(b)).Some? {
      BlockInverse(EncodeBlock(b));
    }
    if DecodeBlock(s).Some? {
      BlockInverse(s);
    }
  }

  lemma {:induction false} BlockRoundTrip(b: Block)
    requires BlockWithinCaps(b)
    ensures DecodeBlock(EncodeBlock(b)) == Some(b)
  {
    var r2 := PutMany(b.transactions, PutSizedTx, []);
    HeaderRoundTrip(b.header, PutInt(|b.transactions|, 4, r2));
    Pow256Values();
    TakePutInt(|b.transactions|, 4, r2);
    forall x, r | x in b.transactions ensures TakeSizedTx(PutSizedTx(x, r)) == Parsed(x, r) {
      SizedTxRoundTrip(x, r);
    }
    TakePutMany(b.transactions, PutSizedTx, TakeSizedTx, []);
  }

  lemma {:induction false} BlockInverse(s: Bytes)
    requires DecodeBlock(s).Some?
    ensures s == EncodeBlock(DecodeBlock(s).value) && BlockWithinCaps(DecodeBlock(s).value)
  {
    HeaderInverse(s);
    var r1 := TakeHeader(s).rest;
    PutTakeInt(r1, 4);
    var n := TakeInt(r1, 4);
    forall r | TakeSizedTx(r).Parsed?
      ensures r == PutSizedTx(TakeSizedTx(r).value, TakeSizedTx(r).rest)
      ensures TxWithinCaps(TakeSizedTx(r).value)
    {
      SizedTxInverse(r);
    }
    PutTakeMany(n.rest, n.value, PutSizedTx, TakeSizedTx);
  }
}
