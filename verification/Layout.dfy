/** The wire and file formats, byte by byte (serialization.hpp, transaction.hpp, block.hpp, blockchain_storage.hpp). */
module Layout {
  import opened Types
  import opened Serialization
  import opened TransactionCodec
  import opened BlockCodec
  import opened Coinbase
  import opened Utxo
  import opened Storage

  /** Byte `k` of an integer counts 256^k. */
  function LittleEndian(v: nat, n: nat): Bytes {
    seq(n, k requires 0 <= k < n => v / Pow256(k) % 256)
  }

  /** The pieces one after the other. */
  function Flat<T>(xs: seq<T>, bytes: T -> Bytes): Bytes {
    if xs == [] then [] else bytes(xs[0]) + Flat(xs[1..], bytes)
  }

  function Prefixed(b: Bytes): Bytes { LittleEndian(|b|, 4) + b }

  lemma {:induction false} DivideByParts(v: nat, k: nat)
    ensures v / 256 / Pow256(k) == v / Pow256(k + 1)
  {
    var p := Pow256(k);
    var q := v / 256 / p;
    assert v / 256 == q * p + v / 256 % p && v == v / 256 * 256 + v % 256;
    var r := v / 256 % p * 256 + v % 256;
    assert v == 256 * p * q + r;
    assert 0 <= r < 256 * p;
    QuotientIs(v, 256 * p, q, r);
  }

  lemma {:induction false} IntBytes(v: nat, n: nat, rest: Bytes)
    ensures PutInt(v, n, rest) == LittleEndian(v, n) + rest
  {
    if n > 0 {
      IntBytes(v / 256, n - 1, rest);
      var low, high := LittleEndian(v, n), LittleEndian(v / 256, n - 1);
      forall k | 0 <= k < n - 1 ensures high[k] == low[k + 1] {
        DivideByParts(v, k);
      }
      assert low == [v % 256] + high;
    }
  }

  lemma {:induction false} BlobBytes(b: Blob, rest: Bytes)
    ensures PutBlob(b, rest) == Prefixed(b) + rest
  {
    IntBytes(|b|, 4, b + rest);
    assert LittleEndian(|b|, 4) + (b + rest) == LittleEndian(|b|, 4) + b + rest;
  }

  lemma {:induction false} ManyBytes<T(!new)>(xs: seq<T>, put: (T, Bytes) -> Bytes, bytes: T -> Bytes, rest: Bytes)
    requires forall x, r :: put(x, r) == bytes(x) + r
    ensures PutMany(xs, put, rest) == Flat(xs, bytes) + rest
  {
    if xs == [] {
      assert [] + rest == rest;
    } else {
      ManyBytes(xs[1..], put, bytes, rest);
      assert bytes(xs[0]) + (Flat(xs[1..], bytes) + rest) == bytes(xs[0]) + Flat(xs[1..], bytes) + rest;
    }
  }

  // ----- Transactions -----

  function InputBytes(i: OutPoint): Bytes { i.txid + LittleEndian(i.index, 4) }

  function OutputBytes(o: TxOutput): Bytes { LittleEndian(o.amount, 8) + Prefixed(o.recipient) }

  function WitnessBytes(w: Witness): Bytes { Prefixed(w.publicKey) + Prefixed(w.signature) }

  /** What is hashed for the id: version, coinbase data, inputs, outputs. */
  function BaseBytes(tx: Transaction): Bytes {
    LittleEndian(tx.version, 4) + Prefixed(tx.coinbaseData)
    + LittleEndian(|tx.inputs|, 4) + Flat(tx.inputs, InputBytes)
    + LittleEndian(|tx.outputs|, 4) + Flat(tx.outputs, OutputBytes)
  }

  lemma {:induction false} ListBytes<T(!new)>(xs: Seq32<T>, put: (T, Bytes) -> Bytes, bytes: T -> Bytes, rest: Bytes)
    requires forall x, r :: put(x, r) == bytes(x) + r
    ensures PutList(xs, put, rest) == LittleEndian(|xs|, 4) + Flat(xs, bytes) + rest
  {
    ManyBytes(xs, put, bytes, rest);
    IntBytes(|xs|, 4, PutMany(xs, put, rest));
    Regroup(LittleEndian(|xs|, 4), Flat(xs, bytes), rest);
  }

  lemma {:induction false} Regroup(a: Bytes, b: Bytes, c: Bytes)
    ensures a + (b + c) == a + b + c
  {
  }

  lemma {:induction false} InputsBytes(xs: Seq32<OutPoint>, rest: Bytes)
    ensures PutList(xs, PutInput, rest) == LittleEndian(|xs|, 4) + Flat(xs, InputBytes) + rest
  {
    hide LittleEndian;
    forall i: OutPoint, r ensures PutInput(i, r) == InputBytes(i) + r {
      IntBytes(i.index, 4, r);
    }
    ListBytes(xs, PutInput, InputBytes, rest);
  }

  lemma {:induction false} OutputsBytes(xs: Seq32<TxOutput>, rest: Bytes)
    ensures PutList(xs, PutOutput, rest) == LittleEndian(|xs|, 4) + Flat(xs, OutputBytes) + rest
  {
    hide LittleEndian, Prefixed;
    forall o: TxOutput, r ensures PutOutput(o, r) == OutputBytes(o) + r {
      BlobBytes(o.recipient, r);
      IntBytes(o.amount, 8, PutBlob(o.recipient, r));
    }
    ListBytes(xs, PutOutput, OutputBytes, rest);
  }

  lemma {:induction false} WitnessesBytes(xs: Seq32<Witness>, rest: Bytes)
    ensures PutList(xs, PutWitness, rest) == LittleEndian(|xs|, 4) + Flat(xs, WitnessBytes) + rest
  {
    hide Prefixed;
    forall w: Witness, r ensures PutWitness(w, r) == WitnessBytes(w) + r {
      BlobBytes(w.signature, r);
      BlobBytes(w.publicKey, PutBlob(w.signature, r));
    }
    ListBytes(xs, PutWitness, WitnessBytes, rest);
  }

  lemma {:induction false} RegroupAll(a: Bytes, b: Bytes, c: Bytes, d: Bytes, e: Bytes, f: Bytes, rest: Bytes)
    ensures a + (b + (c + d + (e + f + rest))) == a + b + c + d + e + f + rest
  {
    Regroup(c + d, e + f, rest);
    Regroup(c + d, e, f);
    Regroup(b, c + d + e + f, rest);
    Regroup(a, b + (c + d + e + f), rest);
    Regroup(b, c + d + e, f);
    Regroup(a, b + (c + d + e), f);
    Regroup(b, c + d, e);
    Regroup(a, b + (c + d), e);
    Regroup(b, c, d);
    Regroup(a, b + c, d);
    Regroup(a, b, c);
  }

  lemma {:induction false} BaseLayout(tx: Transaction, rest: Bytes)
    ensures PutBase(tx, rest) == BaseBytes(tx) + rest
  {
    hide LittleEndian, Prefixed, Flat, PutList;
    var r2 := PutList(tx.outputs, PutOutput, rest);
    var r1 := PutList(tx.inputs, PutInput, r2);
    OutputsBytes(tx.outputs, rest);
    InputsBytes(tx.inputs, r2);
    BlobBytes(tx.coinbaseData, r1);
    IntBytes(tx.version, 4, PutBlob(tx.coinbaseData, r1));
    RegroupAll(LittleEndian(tx.version, 4), Prefixed(tx.coinbaseData), LittleEndian(|tx.inputs|, 4),
      Flat(tx.inputs, InputBytes), LittleEndian(|tx.outputs|, 4), Flat(tx.outputs, OutputBytes), rest);
  }

  /** What is sent and stored, and hashed for the witness id: the base form and the witnesses. */
  lemma {:induction false} FullLayout(tx: Transaction)
    ensures Encode(tx) == BaseBytes(tx) + LittleEndian(|tx.witnesses|, 4) + Flat(tx.witnesses, WitnessBytes)
    ensures Txid(tx) == Sha256(BaseBytes(tx)) && Wtxid(tx) == Sha256(Encode(tx))
  {
    hide LittleEndian, Flat, PutList, BaseBytes, PutBase;
    WitnessesBytes(tx.witnesses, []);
    BaseLayout(tx, PutList(tx.witnesses, PutWitness, []));
    BaseLayout(tx, []);
    assert BaseBytes(tx) + [] == BaseBytes(tx);
  }

  lemma {:induction false} DomainText()
    ensures var text := "CAESAR_TX_INPUT_SIGNATURE_V1";
      |SIGNATURE_DOMAIN| == |text| && forall k :: 0 <= k < |text| ==> SIGNATURE_DOMAIN[k] == text[k] as int
  {
  }

  /** What is signed for an input: the domain, the base form and the index. */
  lemma {:induction false} MessageLayout(tx: Transaction, i: nat)
    ensures SigningMessage(tx, i) == Prefixed(SIGNATURE_DOMAIN) + BaseBytes(tx) + LittleEndian(i, 4)
  {
    hide LittleEndian, Prefixed, BaseBytes, PutBase, PutBlob, PutInt;
    var domain: Blob := SIGNATURE_DOMAIN;
    IntBytes(i, 4, []);
    BaseLayout(tx, PutInt(i, 4, []));
    BlobBytes(domain, PutBase(tx, PutInt(i, 4, [])));
  }

  // ----- Blocks -----

  function HeaderBytes(h: BlockHeader): Bytes {
    LittleEndian(h.version, 4) + LittleEndian(h.height, 8) + h.previousHash + h.merkleRoot + h.witnessRoot
    + LittleEndian(h.timestamp, 8) + LittleEndian(h.nonce, 8) + LittleEndian(h.difficulty, 4)
  }

  lemma {:induction false} HeaderLayout(h: BlockHeader, rest: Bytes)
    ensures PutHeader(h, rest) == HeaderBytes(h) + rest
  {
    hide LittleEndian, PutInt;
    var r5 := PutInt(h.difficulty, 4, rest);
    var r4 := PutInt(h.nonce, 8, r5);
    var r3 := PutInt(h.timestamp, 8, r4);
    var r2 := h.previousHash + (h.merkleRoot + (h.witnessRoot + r3));
    IntBytes(h.difficulty, 4, rest);
    IntBytes(h.nonce, 8, r5);
    IntBytes(h.timestamp, 8, r4);
    IntBytes(h.height, 8, r2);
    IntBytes(h.version, 4, PutInt(h.height, 8, r2));
  }

  function TransactionBytes(tx: Transaction): Bytes {
    var data := Encode(tx);
    LittleEndian(|data|, 4) + data
  }

  lemma {:induction false} SizedLayout(tx: Transaction, rest: Bytes)
    ensures PutSizedTx(tx, rest) == TransactionBytes(tx) + rest
  {
    hide LittleEndian, Encode;
    IntBytes(|Encode(tx)|, 4, Encode(tx) + rest);
  }

  lemma {:induction false} TransactionsLayout(txs: seq<Transaction>)
    ensures PutMany(txs, PutSizedTx, []) == Flat(txs, TransactionBytes)
  {
    hide TransactionBytes, PutSizedTx, PutMany, Flat;
    forall tx: Transaction, r ensures PutSizedTx(tx, r) == TransactionBytes(tx) + r {
      SizedLayout(tx, r);
    }
    ManyBytes(txs, PutSizedTx, TransactionBytes, []);
    assert Flat(txs, TransactionBytes) + [] == Flat(txs, TransactionBytes);
  }

  /** A block: header, count, and each transaction after its size. The hash is that of the header. */
  lemma {:induction false} BlockLayout(b: Block)
    ensures EncodeBlock(b) ==
      HeaderBytes(b.header) + LittleEndian(|b.transactions|, 4) + Flat(b.transactions, TransactionBytes)
    ensures BlockHash(b) == Sha256(HeaderBytes(b.header))
  {
    hide LittleEndian, HeaderBytes, PutHeader, TransactionBytes, PutSizedTx, PutMany, Flat, PutInt;
    TransactionsLayout(b.transactions);
    var r := PutMany(b.transactions, PutSizedTx, []);
    IntBytes(|b.transactions|, 4, r);
    HeaderLayout(b.header, PutInt(|b.transactions|, 4, r));
    HeaderLayout(b.header, []);
    assert HeaderBytes(b.header) + [] == HeaderBytes(b.header);
  }

  function StoredBytes(b: Block): Bytes {
    var data := EncodeBlock(b);
    LittleEndian(|data|, 4) + data + Sha256(data)
  }

  /** The chain file: magic, version, count, and each block between its size and its checksum. */
  lemma {:induction false} FileLayout(chain: seq<Block>)
    ensures EncodeFile(chain) ==
      LittleEndian(0x435A_5231, 4) + LittleEndian(1, 4) + LittleEndian(|chain|, 8) + Flat(chain, StoredBytes)
  {
    hide LittleEndian, StoredBytes, PutStored, PutMany, Flat, PutInt;
    BlocksLayout(chain);
    var r := PutMany(chain, PutStored, []);
    IntBytes(|chain|, 8, r);
    IntBytes(1, 4, PutInt(|chain|, 8, r));
    IntBytes(0x435A_5231, 4, PutInt(1, 4, PutInt(|chain|, 8, r)));
  }

  lemma {:induction false} BlocksLayout(chain: seq<Block>)
    ensures PutMany(chain, PutStored, []) == Flat(chain, StoredBytes)
  {
    hide StoredBytes, PutStored, PutMany, Flat;
    forall b: Block, r ensures PutStored(b, r) == StoredBytes(b) + r {
      StoredLayout(b, r);
    }
    ManyBytes(chain, PutStored, StoredBytes, []);
    assert Flat(chain, StoredBytes) + [] == Flat(chain, StoredBytes);
  }

  lemma {:induction false} StoredLayout(b: Block, rest: Bytes)
    ensures PutStored(b, rest) == StoredBytes(b) + rest
  {
    hide LittleEndian, EncodeBlock;
    var data := EncodeBlock(b);
    IntBytes(|data|, 4, data + (Sha256(data) + rest));
  }
}
