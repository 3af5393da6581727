/** Binary form of transactions, their ids, and what an id commits to (transaction.hpp). */
module TransactionCodec {
  import opened Types
  import opened Serialization

  // Largest list and signature the decoder accepts
  const DECODER_CAP := 1_000_000

  function PutInput(i: OutPoint, rest: Bytes): Bytes {
    i.txid + PutInt(i.index, 4, rest)
  }

  function TakeInput(s: Bytes): Parsed<OutPoint> {
    var (txid, r) :- TakeHash(s);
    var (index, r') :- TakeInt(r, 4);
    if index > MAX_U32 then Truncated else Parsed(OutPoint(txid, index), r')
  }

  function PutOutput(o: TxOutput, rest: Bytes): Bytes {
    PutInt(o.amount, 8, PutBlob(o.recipient, rest))
  }

  function TakeOutput(s: Bytes): Parsed<TxOutput> {
    var (amount, r) :- TakeInt(s, 8);
    var (recipient, r') :- TakeBlob(r, MAX_U32);
    if amount > MAX_U64 then Truncated else Parsed(TxOutput(amount, recipient), r')
  }

  function PutWitness(w: Witness, rest: Bytes): Bytes {
    PutBlob(w.publicKey, PutBlob(w.signature, rest))
  }

  function TakeWitness(cap: nat): Bytes -> Parsed<Witness>
    requires cap <= MAX_U32
  {
    (s: Bytes) =>
      var (key, r) :- TakeBlob(s, MAX_U32);
      var (signature, r') :- TakeBlob(r, cap);
      Parsed(Witness(key, signature), r')
  }

  /** A four-byte count and that many items. */
  function PutList<T>(xs: Seq32<T>, put: (T, Bytes) -> Bytes, rest: Bytes): Bytes {
    PutInt(|xs|, 4, PutMany(xs, put, rest))
  }

  function TakeList<T>(s: Bytes, cap: nat, take: Bytes -> Parsed<T>): Parsed<Seq32<T>>
    requires cap <= MAX_U32
  {
    var (n, r) :- TakeInt(s, 4);
    if n > cap then Truncated
    else
      var (xs, r') :- TakeMany(r, n, take);
      if |xs| > MAX_U32 then Truncated else Parsed(xs, r')
  }

  /** The witness-free form, which the transaction id digests. */
  function PutBase(tx: Transaction, rest: Bytes): Bytes {
    PutInt(tx.version, 4, PutBlob(tx.coinbaseData,
      PutList(tx.inputs, PutInput, PutList(tx.outputs, PutOutput, rest))))
  }

  function PutFull(tx: Transaction, rest: Bytes): Bytes {
    PutBase(tx, PutList(tx.witnesses, PutWitness, rest))
  }

  /** Decoder of the base form, with the caps of the source replaced by `cap`. */
  function TakeBase(s: Bytes, cap: nat): Parsed<Transaction>
    requires cap <= MAX_U32
  {
    var (version, r1) :- TakeInt(s, 4);
    var (data, r2) :- TakeBlob(r1, 128);
    var (inputs, r3) :- TakeList(r2, cap, TakeInput);
    var (outputs, r4) :- TakeList(r3, cap, TakeOutput);
    if version > MAX_U32 || |data| > 128 then Truncated
    else Parsed(Transaction(version, data, inputs, outputs, []), r4)
  }

  /** Decoder of the full form: the base form, then the witnesses. */
  function TakeFull(s: Bytes, cap: nat): Parsed<Transaction>
    requires cap <= MAX_U32
  {
    var (tx, r1) :- TakeBase(s, cap);
    var (witnesses, r2) :- TakeList(r1, cap, TakeWitness(cap));
    Parsed(tx.(witnesses := witnesses), r2)
  }

  function Encode(tx: Transaction): Bytes { PutFull(tx, []) }

  /** Transaction::deserialize_full: the whole input must be consumed. */
  function Decode(s: Bytes): Option<Transaction> {
    match TakeFull(s, DECODER_CAP)
    case Truncated => None
    case Parsed(tx, rest) => if rest == [] then Some(tx) else None
  }

  function Txid(tx: Transaction): Hash256 { Sha256(PutBase(tx, [])) }

  function Wtxid(tx: Transaction): Hash256 { Sha256(Encode(tx)) }

  /** The decoder's limits on a transaction. */
  predicate WithinCaps(tx: Transaction, cap: nat) {
    && |tx.inputs| <= cap && |tx.outputs| <= cap && |tx.witnesses| <= cap
    && forall w :: w in tx.witnesses ==> |w.signature| <= cap
  }

  // ----- Items -----

  lemma {:induction false} InputRoundTrip(i: OutPoint, rest: Bytes)
    ensures TakeInput(PutInput(i, rest)) == Parsed(i, rest)
  {
    Pow256Values();
    TakePutHash(i.txid, PutInt(i.index, 4, rest));
    TakePutInt(i.index, 4, rest);
  }

  lemma {:induction false} InputInverse(s: Bytes)
    requires TakeInput(s).Parsed?
    ensures s == PutInput(TakeInput(s).value, TakeInput(s).rest)
  {
    PutTakeHash(s);
    PutTakeInt(TakeHash(s).rest, 4);
  }

  lemma {:induction false} OutputRoundTrip(o: TxOutput, rest: Bytes)
    ensures TakeOutput(PutOutput(o, rest)) == Parsed(o, rest)
  {
    Pow256Values();
    TakePutInt(o.amount, 8, PutBlob(o.recipient, rest));
    TakePutBlob(o.recipient, rest, MAX_U32);
  }

  lemma {:induction false} OutputInverse(s: Bytes)
    requires TakeOutput(s).Parsed?
    ensures s == PutOutput(TakeOutput(s).value, TakeOutput(s).rest)
  {
    PutTakeInt(s, 8);
    PutTakeBlob(TakeInt(s, 8).rest, MAX_U32);
  }

  lemma {:induction false} WitnessRoundTrip(w: Witness, rest: Bytes, cap: nat)
    requires |w.signature| <= cap <= MAX_U32
    ensures TakeWitness(cap)(PutWitness(w, rest)) == Parsed(w, rest)
  {
    TakePutBlob(w.publicKey, PutBlob(w.signature, rest), MAX_U32);
    TakePutBlob(w.signature, rest, cap);
  }

  lemma {:induction false} WitnessInverse(s: Bytes, cap: nat)
    requires cap <= MAX_U32 && TakeWitness(cap)(s).Parsed?
    ensures var p := TakeWitness(cap)(s);
      s == PutWitness(p.value, p.rest) && |p.value.signature| <= cap
  {
    PutTakeBlob(s, MAX_U32);
    PutTakeBlob(TakeBlob(s, MAX_U32).rest, cap);
  }

  // ----- Lists -----

  lemma {:induction false} ListRoundTrip<T(!new)>(
      xs: Seq32<T>, put: (T, Bytes) -> Bytes, take: Bytes -> Parsed<T>, rest: Bytes, cap: nat)
    requires |xs| <= cap <= MAX_U32
    requires forall x, r :: x in xs ==> take(put(x, r)) == Parsed(x, r)
    ensures TakeList(PutList(xs, put, rest), cap, take) == Parsed(xs, rest)
  {
    Pow256Values();
    TakePutInt(|xs|, 4, PutMany(xs, put, rest));
    TakePutMany(xs, put, take, rest);
  }

  lemma {:induction false} ListInverse<T(!new)>(
      s: Bytes, cap: nat, put: (T, Bytes) -> Bytes, take: Bytes -> Parsed<T>)
    requires cap <= MAX_U32
    requires forall r :: take(r).Parsed? ==> r == put(take(r).value, take(r).rest)
    requires TakeList(s, cap, take).Parsed?
    ensures var p := TakeList(s, cap, take);
      && |p.value| <= cap && s == PutList(p.value, put, p.rest)
      && forall x :: x in p.value ==> exists r :: take(r).Parsed? && take(r).value == x
  {
    PutTakeInt(s, 4);
    var p := TakeInt(s, 4);
    PutTakeMany(p.rest, p.value, put, take);
  }

  lemma {:induction false} InputsRoundTrip(xs: Seq32<OutPoint>, rest: Bytes, cap: nat)
    requires |xs| <= cap <= MAX_U32
    ensures TakeList(PutList(xs, PutInput, rest), cap, TakeInput) == Parsed(xs, rest)
  {
    forall x, r | x in xs ensures TakeInput(PutInput(x, r)) == Parsed(x, r) {
      InputRoundTrip(x, r);
    }
    ListRoundTrip(xs, PutInput, TakeInput, rest, cap);
  }

  lemma {:induction false} OutputsRoundTrip(xs: Seq32<TxOutput>, rest: Bytes, cap: nat)
    requires |xs| <= cap <= MAX_U32
    ensures TakeList(PutList(xs, PutOutput, rest), cap, TakeOutput) == Parsed(xs, rest)
  {
    forall x, r | x in xs ensures TakeOutput(PutOutput(x, r)) == Parsed(x, r) {
      OutputRoundTrip(x, r);
    }
    ListRoundTrip(xs, PutOutput, TakeOutput, rest, cap);
  }

  lemma {:induction false} WitnessesRoundTrip(xs: Seq32<Witness>, rest: Bytes, cap: nat)
    requires |xs| <= cap <= MAX_U32
    requires forall w :: w in xs ==> |w.signature| <= cap
    ensures TakeList(PutList(xs, PutWitness, rest), cap, TakeWitness(cap)) == Parsed(xs, rest)
  {
    forall x, r | x in xs ensures TakeWitness(cap)(PutWitness(x, r)) == Parsed(x, r) {
      WitnessRoundTrip(x, r, cap);
    }
    ListRoundTrip(xs, PutWitness, TakeWitness(cap), rest, cap);
  }

  // ----- Transactions -----

  lemma {:induction false} BaseRoundTrip(tx: Transaction, rest: Bytes, cap: nat)
    requires |tx.inputs| <= cap && |tx.outputs| <= cap <= MAX_U32
    ensures TakeBase(PutBase(tx, rest), cap) == Parsed(tx.(witnesses := []), rest)
  {
    var r3 := PutList(tx.outputs, PutOutput, rest);
    var r2 := PutList(tx.inputs, PutInput, r3);
    assert MAX_U32 < Pow256(4) by { Pow256Values(); }
    TakePutInt(tx.version, 4, PutBlob(tx.coinbaseData, r2));
    TakePutBlob(tx.coinbaseData, r2, 128);
    InputsRoundTrip(tx.inputs, r3, cap);
    OutputsRoundTrip(tx.outputs, rest, cap);
  }

  lemma {:induction false} BaseInverse(s: Bytes, cap: nat)
    requires cap <= MAX_U32
    requires TakeBase(s, cap).Parsed?
    ensures var p := TakeBase(s, cap);
      s == PutBase(p.value, p.rest) && |p.value.inputs| <= cap && |p.value.outputs| <= cap
  {
    PutTakeInt(s, 4);
    var r1 := TakeInt(s, 4).rest;
    PutTakeBlob(r1, 128);
    var r2 := TakeBlob(r1, 128).rest;
    forall r | TakeInput(r).Parsed? ensures r == PutInput(TakeInput(r).value, TakeInput(r).rest) {
      InputInverse(r);
    }
    ListInverse(r2, cap, PutInput, TakeInput);
    var r3 := TakeList(r2, cap, TakeInput).rest;
    forall r | TakeOutput(r).Parsed? ensures r == PutOutput(TakeOutput(r).value, TakeOutput(r).rest) {
      OutputInverse(r);
    }
    ListInverse(r3, cap, PutOutput, TakeOutput);
  }

  /** Decoding undoes encoding for every transaction within the caps, and leaves what follows. */
  lemma {:induction false} FullRoundTrip(tx: Transaction, rest: Bytes, cap: nat)
    requires cap <= MAX_U32 && WithinCaps(tx, cap)
    ensures TakeFull(PutFull(tx, rest), cap) == Parsed(tx, rest)
  {
    BaseRoundTrip(tx, PutList(tx.witnesses, PutWitness, rest), cap);
    WitnessesRoundTrip(tx.witnesses, rest, cap);
  }

  /** Whatever decodes is the encoding of what it decodes to: no second form of a transaction. */
  lemma {:induction false} FullInverse(s: Bytes, cap: nat)
    requires cap <= MAX_U32 && TakeFull(s, cap).Parsed?
    ensures var p := TakeFull(s, cap);
      s == PutFull(p.value, p.rest) && WithinCaps(p.value, cap)
  {
    BaseInverse(s, cap);
    var r := TakeBase(s, cap).rest;
    forall r | TakeWitness(cap)(r).Parsed?
      ensures r == PutWitness(TakeWitness(cap)(r).value, TakeWitness(cap)(r).rest)
      ensures |TakeWitness(cap)(r).value.signature| <= cap
    {
      WitnessInverse(r, cap);
    }
    ListInverse(r, cap, PutWitness, TakeWitness(cap));
  }

  /** The codec is a bijection between capped transactions and the strings that decode. */
  lemma {:induction false} CodecBijection(tx: Transaction, s: Bytes)
    ensures WithinCaps(tx, 1_000_000) <==> Decode(Encode(tx)) == Some(tx)
    ensures Decode(s).Some? ==> s == Encode(Decode(s).value) && WithinCaps(Decode(s).value, 1_000_000)
  {
    hide TakeFull, PutFull, WithinCaps;
    if WithinCaps(tx, DECODER_CAP) {
      FullRoundTrip(tx, [], DECODER_CAP);
    }
    if TakeFull(Encode(tx), DECODER_CAP).Parsed? {
      FullInverse(Encode(tx), DECODER_CAP);
    }
    if TakeFull(s, DECODER_CAP).Parsed? {
      FullInverse(s, DECODER_CAP);
    }
  }

  /** Without the caps the encoding is still one-to-one. */
  lemma {:induction false} EncodeInjective(a: Transaction, b: Transaction)
    requires Encode(a) == Encode(b)
    ensures a == b
  {
    FullRoundTrip(a, [], MAX_U32);
    FullRoundTrip(b, [], MAX_U32);
  }

  /** Two transactions with one base encoding differ at most in their witnesses. */
  lemma {:induction false} BaseInjective(a: Transaction, b: Transaction)
    requires PutBase(a, []) == PutBase(b, [])
    ensures a.(witnesses := []) == b.(witnesses := [])
  {
    BaseRoundTrip(a, [], MAX_U32);
    BaseRoundTrip(b, [], MAX_U32);
  }
}
