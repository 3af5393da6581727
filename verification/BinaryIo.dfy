/** The byte writer and reader, and the encoders and decoders that drive them (serialization.hpp, and the codecs of
    transaction.hpp and block.hpp). */
module BinaryIo {
  import opened Types
  import opened Serialization
  import opened TransactionCodec
  import opened BlockCodec

  // ----- Writing -----

  class BinaryWriter {
    var data: Bytes

    constructor ()
      ensures data == []
    {
      data := [];
    }

    /** write_u32 and write_u64 are this loop over 4 and 8 bytes. */
    method WriteInt(value: nat, n: nat)
      modifies this
      ensures data == old(data) + PutInt(value, n, [])
    {
      var v := value;
      for i := 0 to n
        invariant old(data) + PutInt(value, n, []) == data + PutInt(v, n - i, [])
      {
        assert data + PutInt(v, n - i, []) == data + [v % 256] + PutInt(v / 256, n - i - 1, []);
        data := data + [v % 256];
        v := v / 256;
      }
    }

    method WriteBytes(bytes: Bytes)
      modifies this
      ensures data == old(data) + bytes
    {
      data := data + bytes;
    }

    /** write_string, and a size followed by bytes. */
    method WriteBlob(b: Blob)
      modifies this
      ensures data == old(data) + PutBlob(b, [])
    {
      hide PutInt;
      WriteInt(|b|, 4);
      WriteBytes(b);
      PutIntAppend(|b|, 4, [], b);
      assert b + [] == b && [] + b == b;
    }
  }

  lemma {:induction false} IntThen(v: nat, n: nat, rest: Bytes)
    ensures PutInt(v, n, rest) == PutInt(v, n, []) + rest
  {
    PutIntAppend(v, n, [], rest);
    assert [] + rest == rest;
  }

  lemma {:induction false} BlobThen(b: Blob, rest: Bytes)
    ensures PutBlob(b, rest) == PutBlob(b, []) + rest
  {
    hide PutInt;
    PutIntAppend(|b|, 4, b + [], rest);
    assert b + [] + rest == b + rest;
  }

  lemma {:induction false} InputThen(i: OutPoint, rest: Bytes)
    ensures PutInput(i, rest) == PutInput(i, []) + rest
  {
    hide PutInt;
    IntThen(i.index, 4, rest);
  }

  lemma {:induction false} OutputThen(o: TxOutput, rest: Bytes)
    ensures PutOutput(o, rest) == PutOutput(o, []) + rest
  {
    hide PutInt, PutBlob;
    BlobThen(o.recipient, rest);
    PutIntAppend(o.amount, 8, PutBlob(o.recipient, []), rest);
  }

  lemma {:induction false} WitnessThen(w: Witness, rest: Bytes)
    ensures PutWitness(w, rest) == PutWitness(w, []) + rest
  {
    hide PutBlob;
    BlobThen(w.signature, rest);
    BlobThen(w.publicKey, PutBlob(w.signature, []) + rest);
    BlobThen(w.publicKey, PutBlob(w.signature, []));
    assert PutBlob(w.publicKey, []) + (PutBlob(w.signature, []) + rest)
        == PutBlob(w.publicKey, []) + PutBlob(w.signature, []) + rest;
  }

  lemma {:induction false} SizedTxThen(tx: Transaction, rest: Bytes)
    ensures PutSizedTx(tx, rest) == PutSizedTx(tx, []) + rest
  {
    hide PutInt, Encode;
    PutIntAppend(|Encode(tx)|, 4, Encode(tx) + [], rest);
    assert Encode(tx) + [] + rest == Encode(tx) + rest;
  }

  /** A list is the encodings of its items, one after the other. */
  lemma {:induction false} ManyThen<T(!new)>(xs: seq<T>, put: (T, Bytes) -> Bytes, rest: Bytes)
    requires forall x, r :: put(x, r) == put(x, []) + r
    ensures PutMany(xs, put, rest) == PutMany(xs, put, []) + rest
  {
    if xs != [] {
      var tail := PutMany(xs[1..], put, []);
      ManyThen(xs[1..], put, rest);
      assert put(xs[0], tail + rest) == put(xs[0], []) + (tail + rest);
      assert put(xs[0], tail) == put(xs[0], []) + tail;
      assert put(xs[0], []) + (tail + rest) == put(xs[0], []) + tail + rest;
    }
  }

  lemma {:induction false} ManyLast<T(!new)>(xs: seq<T>, x: T, put: (T, Bytes) -> Bytes)
    requires forall y, r :: put(y, r) == put(y, []) + r
    ensures PutMany(xs + [x], put, []) == PutMany(xs, put, []) + put(x, [])
  {
    if xs == [] {
      assert [] + [x] == [x];
    } else {
      ManyLast(xs[1..], x, put);
      assert (xs + [x])[1..] == xs[1..] + [x];
      var tail := PutMany(xs[1..], put, []);
      assert put(xs[0], tail + put(x, [])) == put(xs[0], []) + (tail + put(x, []));
      assert put(xs[0], tail) == put(xs[0], []) + tail;
      assert put(xs[0], []) + (tail + put(x, [])) == put(xs[0], []) + tail + put(x, []);
    }
  }

  lemma {:induction false} InputsStep(xs: seq<OutPoint>, i: nat)
    requires i < |xs|
    ensures PutMany(xs[..i + 1], PutInput, []) == PutMany(xs[..i], PutInput, []) + PutInput(xs[i], [])
  {
    hide PutInput;
    forall x, r ensures PutInput(x, r) == PutInput(x, []) + r {
      InputThen(x, r);
    }
    ManyLast(xs[..i], xs[i], PutInput);
    assert xs[..i + 1] == xs[..i] + [xs[i]];
  }

  lemma {:induction false} OutputsStep(xs: seq<TxOutput>, i: nat)
    requires i < |xs|
    ensures PutMany(xs[..i + 1], PutOutput, []) == PutMany(xs[..i], PutOutput, []) + PutOutput(xs[i], [])
  {
    hide PutOutput;
    forall x, r ensures PutOutput(x, r) == PutOutput(x, []) + r {
      OutputThen(x, r);
    }
    ManyLast(xs[..i], xs[i], PutOutput);
    assert xs[..i + 1] == xs[..i] + [xs[i]];
  }

  lemma {:induction false} WitnessesStep(xs: seq<Witness>, i: nat)
    requires i < |xs|
    ensures PutMany(xs[..i + 1], PutWitness, []) == PutMany(xs[..i], PutWitness, []) + PutWitness(xs[i], [])
  {
    hide PutWitness;
    forall x, r ensures PutWitness(x, r) == PutWitness(x, []) + r {
      WitnessThen(x, r);
    }
    ManyLast(xs[..i], xs[i], PutWitness);
    assert xs[..i + 1] == xs[..i] + [xs[i]];
  }

  lemma {:induction false} SizedTxsStep(xs: seq<Transaction>, i: nat)
    requires i < |xs|
    ensures PutMany(xs[..i + 1], PutSizedTx, []) == PutMany(xs[..i], PutSizedTx, []) + PutSizedTx(xs[i], [])
  {
    hide PutSizedTx;
    forall x, r ensures PutSizedTx(x, r) == PutSizedTx(x, []) + r {
      SizedTxThen(x, r);
    }
    ManyLast(xs[..i], xs[i], PutSizedTx);
    assert xs[..i + 1] == xs[..i] + [xs[i]];
  }

  method WriteInputs(w: BinaryWriter, inputs: Seq32<OutPoint>)
    modifies w
    ensures w.data == old(w.data) + PutList(inputs, PutInput, [])
  {
    hide PutInt, PutInput;
    w.WriteInt(|inputs|, 4);
    for i := 0 to |inputs|
      invariant w.data == old(w.data) + PutInt(|inputs|, 4, []) + PutMany(inputs[..i], PutInput, [])
    {
      InputsStep(inputs, i);
      var item := new BinaryWriter();
      item.WriteBytes(inputs[i].txid);
      item.WriteInt(inputs[i].index, 4);
      assert item.data == PutInput(inputs[i], []) by { InputBytes(inputs[i]); }
      w.WriteBytes(item.data);
    }
    assert inputs[..|inputs|] == inputs;
    IntThen(|inputs|, 4, PutMany(inputs, PutInput, []));
  }

  lemma {:induction false} InputBytes(i: OutPoint)
    ensures PutInput(i, []) == [] + i.txid + PutInt(i.index, 4, [])
  {
    hide PutInt;
  }

  method WriteOutputs(w: BinaryWriter, outputs: Seq32<TxOutput>)
    modifies w
    ensures w.data == old(w.data) + PutList(outputs, PutOutput, [])
  {
    hide PutInt, PutOutput, PutBlob;
    w.WriteInt(|outputs|, 4);
    for i := 0 to |outputs|
      invariant w.data == old(w.data) + PutInt(|outputs|, 4, []) + PutMany(outputs[..i], PutOutput, [])
    {
      OutputsStep(outputs, i);
      var item := new BinaryWriter();
      item.WriteInt(outputs[i].amount, 8);
      item.WriteBlob(outputs[i].recipient);
      assert item.data == PutOutput(outputs[i], []) by { OutputBytes(outputs[i]); }
      w.WriteBytes(item.data);
    }
    assert outputs[..|outputs|] == outputs;
    IntThen(|outputs|, 4, PutMany(outputs, PutOutput, []));
  }

  lemma {:induction false} OutputBytes(o: TxOutput)
    ensures PutOutput(o, []) == [] + PutInt(o.amount, 8, []) + PutBlob(o.recipient, [])
  {
    hide PutInt, PutBlob;
    IntThen(o.amount, 8, PutBlob(o.recipient, []));
  }

  /** Transaction::serialize_binary */
  method SerializeBase(tx: Transaction) returns (data: Bytes)
    ensures data == PutBase(tx, [])
  {
    hide PutInt, PutBlob, PutList;
    var w := new BinaryWriter();
    w.WriteInt(tx.version, 4);
    w.WriteBlob(tx.coinbaseData);
    WriteInputs(w, tx.inputs);
    WriteOutputs(w, tx.outputs);
    data := w.data;
    BaseBytes(tx, []);
  }

  lemma {:induction false} BaseBytes(tx: Transaction, rest: Bytes)
    ensures PutBase(tx, rest) == [] + PutInt(tx.version, 4, []) + PutBlob(tx.coinbaseData, []) +
      PutList(tx.inputs, PutInput, []) + PutList(tx.outputs, PutOutput, []) + rest
  {
    hide PutInt, PutBlob, PutList;
    var outputs := PutList(tx.outputs, PutOutput, []);
    var inputs := PutList(tx.inputs, PutInput, []);
    ListsThen(tx, rest);
    ListsThen(tx, outputs + rest);
    BlobThen(tx.coinbaseData, inputs + (outputs + rest));
    IntThen(tx.version, 4, PutBlob(tx.coinbaseData, []) + (inputs + (outputs + rest)));
  }

  lemma {:induction false} ListsThen(tx: Transaction, rest: Bytes)
    ensures PutList(tx.outputs, PutOutput, rest) == PutList(tx.outputs, PutOutput, []) + rest
    ensures PutList(tx.inputs, PutInput, rest) == PutList(tx.inputs, PutInput, []) + rest
    ensures PutList(tx.witnesses, PutWitness, rest) == PutList(tx.witnesses, PutWitness, []) + rest
  {
    hide PutInt, PutOutput, PutInput, PutWitness, PutMany;
    forall x, r ensures PutInput(x, r) == PutInput(x, []) + r {
      InputThen(x, r);
    }
    forall x, r ensures PutOutput(x, r) == PutOutput(x, []) + r {
      OutputThen(x, r);
    }
    forall x, r ensures PutWitness(x, r) == PutWitness(x, []) + r {
      WitnessThen(x, r);
    }
    ManyThen(tx.inputs, PutInput, rest);
    ManyThen(tx.outputs, PutOutput, rest);
    ManyThen(tx.witnesses, PutWitness, rest);
    PutIntAppend(|tx.inputs|, 4, PutMany(tx.inputs, PutInput, []), rest);
    PutIntAppend(|tx.outputs|, 4, PutMany(tx.outputs, PutOutput, []), rest);
    PutIntAppend(|tx.witnesses|, 4, PutMany(tx.witnesses, PutWitness, []), rest);
  }

  /** Transaction::serialize_full_binary */
  method SerializeFull(tx: Transaction) returns (data: Bytes)
    ensures data == Encode(tx)
  {
    hide PutInt, PutBlob, PutList, PutBase, PutWitness;
    var w := new BinaryWriter();
    var base := SerializeBase(tx);
    w.WriteBytes(base);
    w.WriteInt(|tx.witnesses|, 4);
    for i := 0 to |tx.witnesses|
      invariant fresh(w)
      invariant w.data == base + PutInt(|tx.witnesses|, 4, []) + PutMany(tx.witnesses[..i], PutWitness, [])
    {
      WitnessesStep(tx.witnesses, i);
      ghost var before := w.data;
      w.WriteBlob(tx.witnesses[i].publicKey);
      w.WriteBlob(tx.witnesses[i].signature);
      assert w.data == before + PutWitness(tx.witnesses[i], []) by { WitnessBytes(tx.witnesses[i]); }
    }
    assert tx.witnesses[..|tx.witnesses|] == tx.witnesses;
    data := w.data;
    FullBytes(tx);
  }

  lemma {:induction false} WitnessBytes(w: Witness)
    ensures PutWitness(w, []) == PutBlob(w.publicKey, []) + PutBlob(w.signature, [])
  {
    hide PutBlob;
    BlobThen(w.publicKey, PutBlob(w.signature, []));
  }

  lemma {:induction false} FullBytes(tx: Transaction)
    ensures Encode(tx) == PutBase(tx, []) + PutInt(|tx.witnesses|, 4, []) + PutMany(tx.witnesses, PutWitness, [])
  {
    hide PutInt, PutBlob, PutMany, PutBase;
    var witnesses := PutList(tx.witnesses, PutWitness, []);
    BaseBytes(tx, []);
    BaseBytes(tx, witnesses);
    IntThen(|tx.witnesses|, 4, PutMany(tx.witnesses, PutWitness, []));
  }

  /** Each transaction after its size; false where the source throws, for one whose size needs more than four bytes. */
  method WriteTransactions(w: BinaryWriter, txs: seq<Transaction>) returns (ok: bool)
    modifies w
    ensures ok <==> forall tx :: tx in txs ==> |Encode(tx)| <= MAX_U32
    ensures ok ==> w.data == old(w.data) + PutMany(txs, PutSizedTx, [])
  {
    hide PutInt, Encode, PutSizedTx;
    for i := 0 to |txs|
      invariant forall k :: 0 <= k < i ==> |Encode(txs[k])| <= MAX_U32
      invariant w.data == old(w.data) + PutMany(txs[..i], PutSizedTx, [])
    {
      SizedTxsStep(txs, i);
      var tx := SerializeFull(txs[i]);
      if |tx| > MAX_U32 {
        assert txs[i] in txs;
        return false;
      }
      ghost var before := w.data;
      w.WriteInt(|tx|, 4);
      w.WriteBytes(tx);
      assert w.data == before + PutSizedTx(txs[i], []) by { SizedTxBytes(txs[i]); }
    }
    assert txs[..|txs|] == txs;
    ok := true;
  }

  /** Block::serialize_full_binary; None where it throws. */
  method SerializeBlock(b: Block) returns (data: Option<Bytes>)
    ensures data.Some? <==> Encodable(b)
    ensures data.Some? ==> data.value == EncodeBlock(b)
  {
    hide PutInt, PutHeader, Encode, PutSizedTx, PutMany;
    var w := new BinaryWriter();
    var header := SerializeHeader(b.header);
    w.WriteBytes(header);
    if |b.transactions| > MAX_U32 {
      return None;
    }
    w.WriteInt(|b.transactions|, 4);
    var fits := WriteTransactions(w, b.transactions);
    if !fits {
      return None;
    }
    BlockBytes(b);
    data := Some(w.data);
  }

  lemma {:induction false} SizedTxBytes(tx: Transaction)
    ensures PutSizedTx(tx, []) == PutInt(|Encode(tx)|, 4, []) + Encode(tx)
  {
    hide PutInt, Encode;
    IntThen(|Encode(tx)|, 4, Encode(tx) + []);
    assert Encode(tx) + [] == Encode(tx);
  }

  lemma {:induction false} BlockBytes(b: Block)
    ensures EncodeBlock(b) ==
      EncodeHeader(b.header) + PutInt(|b.transactions|, 4, []) + PutMany(b.transactions, PutSizedTx, [])
  {
    hide PutInt, PutHeader, PutMany;
    var txs := PutMany(b.transactions, PutSizedTx, []);
    IntThen(|b.transactions|, 4, txs);
    HeaderBytes(b.header, []);
    HeaderBytes(b.header, PutInt(|b.transactions|, 4, []) + txs);
  }

  lemma {:induction false} HeaderBytes(h: BlockHeader, rest: Bytes)
    ensures PutHeader(h, rest) ==
      [] + PutInt(h.version, 4, []) + PutInt(h.height, 8, []) + h.previousHash + h.merkleRoot
      + h.witnessRoot + PutInt(h.timestamp, 8, []) + PutInt(h.nonce, 8, []) + PutInt(h.difficulty, 4, []) + rest
  {
    hide PutInt;
    var r7 := PutInt(h.difficulty, 4, rest);
    var r6 := PutInt(h.nonce, 8, r7);
    var r5 := PutInt(h.timestamp, 8, r6);
    var r2 := h.previousHash + (h.merkleRoot + (h.witnessRoot + r5));
    IntThen(h.difficulty, 4, rest);
    IntThen(h.nonce, 8, r7);
    IntThen(h.timestamp, 8, r6);
    IntThen(h.height, 8, r2);
    IntThen(h.version, 4, PutInt(h.height, 8, r2));
  }

  /** BlockHeader::serialize_binary */
  method SerializeHeader(h: BlockHeader) returns (data: Bytes)
    ensures data == EncodeHeader(h)
  {
    hide PutInt, PutHeader;
    var w := new BinaryWriter();
    w.WriteInt(h.version, 4);
    w.WriteInt(h.height, 8);
    w.WriteBytes(h.previousHash);
    w.WriteBytes(h.merkleRoot);
    w.WriteBytes(h.witnessRoot);
    w.WriteInt(h.timestamp, 8);
    w.WriteInt(h.nonce, 8);
    w.WriteInt(h.difficulty, 4);
    data := w.data;
    HeaderBytes(h, []);
  }

  // ----- Reading -----

  /** A read gives what the decoder takes off the front, and stands behind it; or it fails (the
      source throws) exactly if the decoder does. */
  ghost predicate Reads<T>(p: Parsed<T>, r: Option<T>, rest: Bytes) {
    if p.Truncated? then r.None? else r == Some(p.value) && rest == p.rest
  }

  class BinaryReader {
    const data: Bytes
    var position: nat

    ghost predicate Valid()
      reads this
    {
      position <= |data|
    }

    ghost function Rest(): Bytes
      requires Valid()
      reads this
    {
      data[position..]
    }

    constructor (data: Bytes)
      ensures Valid() && Rest() == data
    {
      this.data := data;
      position := 0;
    }

    /** read_u32 and read_u64 are this loop over 4 and 8 bytes. */
    method ReadInt(n: nat) returns (r: Option<nat>)
      requires Valid()
      modifies this
      ensures Valid() && Reads(TakeInt(old(Rest()), n), r, Rest())
    {
      hide TakeInt, Pow256;
      ghost var s := Rest();
      PutTakeInt(s, n);
      ReadNothing(s, n);
      if n > |data| - position {
        return None;
      }
      var value: nat := 0;
      for i := 0 to n
        invariant position == old(position) + i <= |data|
        invariant |Rest()| >= n - i
        invariant TakeInt(Rest(), n - i).Parsed?
        invariant var t := TakeInt(Rest(), n - i); TakeInt(s, n) == Parsed(value + Pow256(i) * t.value, t.rest)
      {
        IntStep(s, Rest(), n, i, value);
        assert Rest()[1..] == data[position + 1..];
        value := value + Pow256(i) * data[position];
        position := position + 1;
      }
      NothingLeft(Rest(), n);
      r := Some(value);
    }

    method ReadBytes(n: nat) returns (r: Option<Bytes>)
      requires Valid()
      modifies this
      ensures Valid() && Reads(TakeBytes(old(Rest()), n), r, Rest())
    {
      if n > |data| - position {
        return None;
      }
      assert data[position..][..n] == data[position..position + n];
      r := Some(data[position..position + n]);
      position := position + n;
    }

    /** A size of at most `cap`, and that many bytes. */
    method ReadBlob(cap: nat) returns (r: Option<Blob>)
      requires Valid() && cap <= MAX_U32
      modifies this
      ensures Valid() && Reads(TakeBlob(old(Rest()), cap), r, Rest())
    {
      hide TakeInt;
      var n := ReadInt(4);
      if n.None? || n.value > cap {
        return None;
      }
      r := ReadBytes(n.value);
    }

    method ReadHash() returns (r: Option<Hash256>)
      requires Valid()
      modifies this
      ensures Valid() && Reads(TakeHash(old(Rest())), r, Rest())
    {
      r := ReadBytes(32);
    }
  }

  lemma {:induction false} ReadNothing(s: Bytes, n: nat)
    ensures TakeInt(s, n).Parsed? ==> TakeInt(s, n) == Parsed(0 + Pow256(0) * TakeInt(s, n).value, TakeInt(s, n).rest)
  {
  }

  lemma {:induction false} NothingLeft(s: Bytes, n: nat)
    ensures TakeInt(s, 0) == Parsed(0, s) && Pow256(n) * 0 == 0
  {
  }

  /** One byte of an integer: it counts for its place, and the rest is read on. */
  lemma {:induction false} IntStep(s: Bytes, rest: Bytes, n: nat, i: nat, value: nat)
    requires i < n && rest != [] && TakeInt(rest, n - i).Parsed?
    requires TakeInt(s, n) == Parsed(value + Pow256(i) * TakeInt(rest, n - i).value, TakeInt(rest, n - i).rest)
    ensures TakeInt(rest[1..], n - i - 1).Parsed? && Pow256(i) * rest[0] >= 0
    ensures var t := TakeInt(rest[1..], n - i - 1);
      TakeInt(s, n) == Parsed(value + Pow256(i) * rest[0] + Pow256(i + 1) * t.value, t.rest)
  {
    var t := TakeInt(rest[1..], n - i - 1);
    Shift(Pow256(i), rest[0], t.value);
  }

  lemma {:induction false} Shift(p: nat, low: nat, high: nat)
    ensures p * (low + 256 * high) == p * low + 256 * p * high
  {
  }

  method ReadInput(reader: BinaryReader) returns (r: Option<OutPoint>)
    requires reader.Valid()
    modifies reader
    ensures reader.Valid() && Reads(TakeInput(old(reader.Rest())), r, reader.Rest())
  {
    hide TakeInt, TakeHash;
    var txid := reader.ReadHash();
    if txid.None? {
      return None;
    }
    var index := reader.ReadInt(4);
    if index.None? || index.value > MAX_U32 {
      return None;
    }
    r := Some(OutPoint(txid.value, index.value));
  }

  method ReadOutput(reader: BinaryReader) returns (r: Option<TxOutput>)
    requires reader.Valid()
    modifies reader
    ensures reader.Valid() && Reads(TakeOutput(old(reader.Rest())), r, reader.Rest())
  {
    hide TakeInt, TakeBlob;
    var amount := reader.ReadInt(8);
    if amount.None? {
      return None;
    }
    var recipient := reader.ReadBlob(MAX_U32);
    if recipient.None? || amount.value > MAX_U64 {
      return None;
    }
    r := Some(TxOutput(amount.value, recipient.value));
  }

  method ReadWitness(reader: BinaryReader) returns (r: Option<Witness>)
    requires reader.Valid()
    modifies reader
    ensures reader.Valid() && Reads(TakeWitness(DECODER_CAP)(old(reader.Rest())), r, reader.Rest())
  {
    hide TakeBlob;
    var key := reader.ReadBlob(MAX_U32);
    if key.None? {
      return None;
    }
    var signature := reader.ReadBlob(DECODER_CAP);
    if signature.None? {
      return None;
    }
    r := Some(Witness(key.value, signature.value));
  }

  method ReadSizedTx(reader: BinaryReader) returns (r: Option<Transaction>)
    requires reader.Valid()
    modifies reader
    ensures reader.Valid() && Reads(TakeSizedTx(old(reader.Rest())), r, reader.Rest())
  {
    hide TakeBlob, Decode;
    var data := reader.ReadBlob(DECODER_CAP);
    if data.None? {
      return None;
    }
    r := DeserializeFull(data.value);
  }

  /** Where a list loop stands: `done` was read, and `left` items are still to come. */
  ghost predicate Reading<T>(start: Bytes, n: nat, take: Bytes -> Parsed<T>, done: seq<T>, rest: Bytes, left: nat) {
    var whole, tail := TakeMany(start, n, take), TakeMany(rest, left, take);
    if tail.Truncated? then whole.Truncated? else whole == Parsed(done + tail.value, tail.rest)
  }

  lemma {:induction false} ReadingStarts<T>(start: Bytes, n: nat, take: Bytes -> Parsed<T>)
    ensures Reading(start, n, take, [], start, n)
  {
    var t := TakeMany(start, n, take);
    if t.Parsed? {
      assert [] + t.value == t.value;
    }
  }

  lemma {:induction false} ReadingStep<T>(start: Bytes, n: nat, take: Bytes -> Parsed<T>, done: seq<T>, rest: Bytes,
      left: nat)
    requires Reading(start, n, take, done, rest, left) && left > 0
    ensures take(rest).Truncated? ==> TakeMany(start, n, take).Truncated?
    ensures take(rest).Parsed? ==> Reading(start, n, take, done + [take(rest).value], take(rest).rest, left - 1)
  {
    if take(rest).Parsed? {
      var more := TakeMany(take(rest).rest, left - 1, take);
      if more.Parsed? {
        assert done + ([take(rest).value] + more.value) == done + [take(rest).value] + more.value;
      }
    }
  }

  lemma {:induction false} ReadingEnds<T>(start: Bytes, n: nat, take: Bytes -> Parsed<T>, done: seq<T>, rest: Bytes)
    requires Reading(start, n, take, done, rest, 0)
    ensures TakeMany(start, n, take) == Parsed(done, rest)
  {
    assert done + [] == done;
  }

  method ReadInputs(reader: BinaryReader) returns (r: Option<Seq32<OutPoint>>)
    requires reader.Valid()
    modifies reader
    ensures reader.Valid() && Reads(TakeList(old(reader.Rest()), DECODER_CAP, TakeInput), r, reader.Rest())
  {
    hide TakeInt, TakeInput, TakeMany, Reading;
    var n := reader.ReadInt(4);
    if n.None? || n.value > DECODER_CAP {
      return None;
    }
    ghost var start := reader.Rest();
    var done: Seq32<OutPoint> := [];
    ReadingStarts(start, n.value, TakeInput);
    for i := 0 to n.value
      invariant reader.Valid() && |done| == i
      invariant Reading(start, n.value, TakeInput, done, reader.Rest(), n.value - i)
    {
      ReadingStep(start, n.value, TakeInput, done, reader.Rest(), n.value - i);
      var next := ReadInput(reader);
      if next.None? {
        return None;
      }
      done := done + [next.value];
    }
    ReadingEnds(start, n.value, TakeInput, done, reader.Rest());
    r := Some(done);
  }

  method ReadOutputs(reader: BinaryReader) returns (r: Option<Seq32<TxOutput>>)
    requires reader.Valid()
    modifies reader
    ensures reader.Valid() && Reads(TakeList(old(reader.Rest()), DECODER_CAP, TakeOutput), r, reader.Rest())
  {
    hide TakeInt, TakeOutput, TakeMany, Reading;
    var n := reader.ReadInt(4);
    if n.None? || n.value > DECODER_CAP {
      return None;
    }
    ghost var start := reader.Rest();
    var done: Seq32<TxOutput> := [];
    ReadingStarts(start, n.value, TakeOutput);
    for i := 0 to n.value
      invariant reader.Valid() && |done| == i
      invariant Reading(start, n.value, TakeOutput, done, reader.Rest(), n.value - i)
    {
      ReadingStep(start, n.value, TakeOutput, done, reader.Rest(), n.value - i);
      var next := ReadOutput(reader);
      if next.None? {
        return None;
      }
      done := done + [next.value];
    }
    ReadingEnds(start, n.value, TakeOutput, done, reader.Rest());
    r := Some(done);
  }

  method ReadWitnesses(reader: BinaryReader) returns (r: Option<Seq32<Witness>>)
    requires reader.Valid()
    modifies reader
    ensures reader.Valid()
    ensures Reads(TakeList(old(reader.Rest()), DECODER_CAP, TakeWitness(DECODER_CAP)), r, reader.Rest())
  {
    hide TakeInt, TakeWitness, TakeMany, Reading;
    var n := reader.ReadInt(4);
    if n.None? || n.value > DECODER_CAP {
      return None;
    }
    ghost var start := reader.Rest();
    var done: Seq32<Witness> := [];
    ReadingStarts(start, n.value, TakeWitness(DECODER_CAP));
    for i := 0 to n.value
      invariant reader.Valid() && |done| == i
      invariant Reading(start, n.value, TakeWitness(DECODER_CAP), done, reader.Rest(), n.value - i)
    {
      ReadingStep(start, n.value, TakeWitness(DECODER_CAP), done, reader.Rest(), n.value - i);
      var next := ReadWitness(reader);
      if next.None? {
        return None;
      }
      done := done + [next.value];
    }
    ReadingEnds(start, n.value, TakeWitness(DECODER_CAP), done, reader.Rest());
    r := Some(done);
  }

  /** Transaction::deserialize_full */
  method DeserializeFull(data: Bytes) returns (r: Option<Transaction>)
    ensures r == Decode(data)
  {
    hide TakeInt, TakeBlob, TakeList, TakeMany;
    var reader := new BinaryReader(data);
    PutTakeInt(data, 4);
    Pow256Values();
    var version := reader.ReadInt(4);
    if version.None? {
      return None;
    }
    PutTakeBlob(reader.Rest(), 128);
    var coinbaseData := reader.ReadBlob(128);
    if coinbaseData.None? {
      return None;
    }
    var inputs := ReadInputs(reader);
    if inputs.None? {
      return None;
    }
    var outputs := ReadOutputs(reader);
    if outputs.None? {
      return None;
    }
    var witnesses := ReadWitnesses(reader);
    if witnesses.None? || reader.position != |reader.data| {
      return None;
    }
    r := Some(Transaction(version.value, coinbaseData.value, inputs.value, outputs.value, witnesses.value));
  }

  method ReadHeader(reader: BinaryReader) returns (r: Option<BlockHeader>)
    requires reader.Valid()
    modifies reader
    ensures reader.Valid() && Reads(TakeHeader(old(reader.Rest())), r, reader.Rest())
  {
    hide TakeInt, TakeHash;
    var version := reader.ReadInt(4);
    if version.None? { return None; }
    var height := reader.ReadInt(8);
    if height.None? { return None; }
    var previousHash := reader.ReadHash();
    if previousHash.None? { return None; }
    var merkleRoot := reader.ReadHash();
    if merkleRoot.None? { return None; }
    var witnessRoot := reader.ReadHash();
    if witnessRoot.None? { return None; }
    var timestamp := reader.ReadInt(8);
    if timestamp.None? { return None; }
    var nonce := reader.ReadInt(8);
    if nonce.None? { return None; }
    var difficulty := reader.ReadInt(4);
    if difficulty.None? { return None; }
    if version.value > MAX_U32 || height.value > MAX_U64 || timestamp.value > MAX_U64 || nonce.value > MAX_U64
      || difficulty.value > MAX_U32
    {
      return None;
    }
    r := Some(BlockHeader(version.value, height.value, previousHash.value, merkleRoot.value, witnessRoot.value,
      timestamp.value, nonce.value, difficulty.value));
  }

  /** Block::deserialize_full */
  method DeserializeBlock(data: Bytes) returns (r: Option<Block>)
    ensures r == DecodeBlock(data)
  {
    hide TakeHeader, TakeInt, TakeSizedTx, TakeMany, Reading;
    var reader := new BinaryReader(data);
    var header := ReadHeader(reader);
    if header.None? {
      return None;
    }
    var n := reader.ReadInt(4);
    if n.None? || n.value > DECODER_CAP {
      return None;
    }
    ghost var start := reader.Rest();
    var done: seq<Transaction> := [];
    ReadingStarts(start, n.value, TakeSizedTx);
    for i := 0 to n.value
      invariant reader.Valid() && fresh(reader)
      invariant Reading(start, n.value, TakeSizedTx, done, reader.Rest(), n.value - i)
    {
      ReadingStep(start, n.value, TakeSizedTx, done, reader.Rest(), n.value - i);
      var next := ReadSizedTx(reader);
      if next.None? {
        return None;
      }
      done := done + [next.value];
    }
    ReadingEnds(start, n.value, TakeSizedTx, done, reader.Rest());
    r := if reader.position == |reader.data| then Some(Block(header.value, done)) else None;
  }
}
