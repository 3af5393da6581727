/** Machine integers, byte strings and the records of the protocol.

The cryptographic primitives are constants without a value: nothing is known of them beyond
their type, so every theorem holds whatever they compute. Where a theorem relies on the hash
function having no collision, it says so for the exact byte strings that are hashed.
 */
module Types {
  const MAX_U32 := 0xFFFF_FFFF
  const MAX_U64 := 0xFFFF_FFFF_FFFF_FFFF

  type byte = x: int | 0 <= x < 256
  type u32 = x: int | 0 <= x <= MAX_U32
  type u64 = x: int | 0 <= x <= MAX_U64

  type Bytes = seq<byte>
  type Hash256 = h: Bytes | |h| == 32 witness Zeros(32)

  /** A sequence whose length the encoders can write in four bytes. */
  type Seq32<T> = s: seq<T> | |s| <= MAX_U32 witness []
  type Blob = b: Bytes | |b| <= MAX_U32 witness []
  type CoinbaseData = b: Bytes | |b| <= 128 witness []

  function Zeros(n: nat): (z: Bytes)
    ensures |z| == n
  {
    if n == 0 then [] else [0] + Zeros(n - 1)
  }

  const ZERO_HASH: Hash256 := Zeros(32)

  datatype Option<+T> = None | Some(value: T) {
    predicate IsFailure() { None? }
    function PropagateFailure<U>(): Option<U> requires None? { None }
    function Extract(): T requires Some? { value }
  }

  /** A transaction input names the output it spends, so one record serves for both. */
  datatype OutPoint = OutPoint(txid: Hash256, index: u32)

  datatype TxOutput = TxOutput(amount: u64, recipient: Blob)

  datatype Witness = Witness(publicKey: Blob, signature: Blob)

  /** The field types hold exactly the transactions the encoder accepts without throwing. */
  datatype Transaction = Transaction(
    version: u32,
    coinbaseData: CoinbaseData,
    inputs: Seq32<OutPoint>,
    outputs: Seq32<TxOutput>,
    witnesses: Seq32<Witness>)

  datatype BlockHeader = BlockHeader(
    version: u32,
    height: u64,
    previousHash: Hash256,
    merkleRoot: Hash256,
    witnessRoot: Hash256,
    timestamp: u64,
    nonce: u64,
    difficulty: u32)

  datatype Block = Block(header: BlockHeader, transactions: seq<Transaction>)

  // SHA-256 of a byte string
  const Sha256: Bytes -> Hash256

  // Memory-hard proof-of-work hash of a header and a nonce
  const PowHash: (Bytes, u64) -> Hash256

  // Does the text parse as a public key?
  const KeyParses: Blob -> bool

  // Address derived from a public key
  const AddressOf: Blob -> Blob

  // Does the signature verify for the message under the key?
  const SignatureOk: (Bytes, Blob, Blob) -> bool

  predicate Distinct<T(==)>(s: seq<T>) {
    forall i, j :: 0 <= i < j < |s| ==> s[i] != s[j]
  }

  /** No two of the given byte strings share a digest. */
  ghost predicate CollisionFree(s: set<Bytes>) {
    forall x, y :: x in s && y in s && Sha256(x) == Sha256(y) ==> x == y
  }
}
