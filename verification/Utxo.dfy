/** The set of unspent outputs, and transactions checked against it
    (utxo.hpp, ownership.hpp, mempool_validation.hpp). */
module Utxo {
  import opened Types
  import opened Serialization
  import opened TransactionCodec
  import opened Rules
  import opened Sums

  type Utxo = map<OutPoint, TxOutput>

  class UTXOSet {
    var entries: Utxo

    constructor (initial: Utxo)
      ensures entries == initial
    {
      entries := initial;
    }

    method Add(point: OutPoint, output: TxOutput) returns (added: bool)
      modifies this
      ensures added == (point !in old(entries))
      ensures entries == if added then old(entries)[point := output] else old(entries)
    {
      added := point !in entries;
      if added {
        entries := entries[point := output];
      }
    }

    method Spend(point: OutPoint) returns (spent: bool)
      modifies this
      ensures spent == (point in old(entries))
      ensures entries == old(entries) - {point}
    {
      spent := point in entries;
      entries := entries - {point};
    }
  }

  function Amount(o: TxOutput): nat { o.amount }

  /** Total value of a set of unspent outputs. */
  ghost function Total(u: Utxo): nat { Sum(u, Amount) }

  /** The outputs a transaction creates. */
  function Outputs(txid: Hash256, outputs: Seq32<TxOutput>): (m: Utxo)
    ensures forall o :: o in m <==> o.txid == txid && o.index < |outputs|
    ensures forall o :: o in m ==> m[o] == outputs[o.index]
  {
    if outputs == [] then map[]
    else
      var n := |outputs| - 1;
      Outputs(txid, outputs[..n])[OutPoint(txid, n) := outputs[n]]
  }

  /** None of the first `n` outputs of `txid` is in the set. */
  predicate Fresh(u: Utxo, txid: Hash256, n: nat) {
    forall o :: o in u && o.txid == txid ==> n <= o.index
  }

  function Created(tx: Transaction): Utxo { Outputs(Txid(tx), tx.outputs) }

  function Spent(tx: Transaction): set<OutPoint> { set o | o in tx.inputs }

  /** Every input exists and none is named twice. */
  predicate Spendable(u: Utxo, inputs: seq<OutPoint>) {
    Distinct(inputs) && forall o :: o in inputs ==> o in u
  }

  function InputSum(u: Utxo, inputs: seq<OutPoint>): nat
    requires forall o :: o in inputs ==> o in u
  {
    if inputs == [] then 0
    else InputSum(u, inputs[..|inputs| - 1]) + u[inputs[|inputs| - 1]].amount
  }

  /** validate_transaction_against_utxo */
  predicate AgainstUtxo(tx: Transaction, u: Utxo) {
    && TxValid(tx) && Spendable(u, tx.inputs)
    && SumAmounts(tx.outputs) <= InputSum(u, tx.inputs) <= MAX_U64
  }

  /** "CAESAR_TX_INPUT_SIGNATURE_V1" */
  const SIGNATURE_DOMAIN: Blob :=
    [67, 65, 69, 83, 65, 82, 95, 84, 88, 95, 73, 78, 80, 85, 84, 95,
     83, 73, 71, 78, 65, 84, 85, 82, 69, 95, 86, 49]

  function SigningMessage(tx: Transaction, i: nat): Bytes {
    PutBlob(SIGNATURE_DOMAIN, PutBase(tx, PutInt(i, 4, [])))
  }

  /** Witness `i` owns the spent output and signs this input of this transaction. */
  predicate OwnsInput(tx: Transaction, i: nat, previous: TxOutput)
    requires i < |tx.witnesses|
  {
    var w := tx.witnesses[i];
    && previous.recipient != [] && w.publicKey != []
    && previous.recipient == AddressOf(w.publicKey)
    && SignatureOk(SigningMessage(tx, i), w.publicKey, w.signature)
  }

  /** validate_transaction_witness */
  predicate WitnessOk(tx: Transaction, u: Utxo) {
    && |tx.witnesses| == |tx.inputs|
    && (forall w :: w in tx.witnesses ==> w.publicKey != [] && w.signature != [] && KeyParses(w.publicKey))
    && AgainstUtxo(tx, u)
    && forall i :: 0 <= i < |tx.inputs| ==> OwnsInput(tx, i, u[tx.inputs[i]])
  }

  /** Effect of a transaction: its inputs leave, its outputs enter and must be new. */
  function ApplyTx(u: Utxo, tx: Transaction): Option<Utxo> {
    var rest := u - Spent(tx);
    if Spendable(u, tx.inputs) && Fresh(rest, Txid(tx), |tx.outputs|) then Some(rest + Created(tx)) else None
  }

  // ----- The loops of the source compute these predicates -----

  datatype Reason = Accepted | InvalidTransaction | Duplicate | MissingInput | DuplicateInput
                  | DoubleSpend | ValueOverflow | InsufficientInputValue | TransactionTooLarge | MempoolFull

  /** The first fault among the inputs, taken in order: named before, not there, or one too many for 64 bits. */
  function InputFault(u: Utxo, inputs: seq<OutPoint>): (fault: Reason)
    ensures fault.Accepted? <==> Spendable(u, inputs) && InputSum(u, inputs) <= MAX_U64
  {
    if inputs == [] then Accepted
    else
      var front, last := inputs[..|inputs| - 1], inputs[|inputs| - 1];
      var fault := InputFault(u, front);
      SpendableFront(u, inputs);
      if !fault.Accepted? then fault
      else if last in front then DuplicateInput
      else if last !in u then MissingInput
      else if InputSum(u, front) + u[last].amount > MAX_U64 then ValueOverflow
      else Accepted
  }

  lemma {:induction false} SpendableFront(u: Utxo, inputs: seq<OutPoint>)
    requires inputs != []
    ensures var front, last := inputs[..|inputs| - 1], inputs[|inputs| - 1];
      Spendable(u, inputs) <==> Spendable(u, front) && last !in front && last in u
  {
    var front, last := inputs[..|inputs| - 1], inputs[|inputs| - 1];
    assert inputs == front + [last];
    if Spendable(u, front) && last !in front && last in u {
      assert Distinct(inputs);
    }
    if Spendable(u, inputs) {
      assert forall o :: o in front ==> o in inputs;
      assert last in inputs;
    }
  }

  /** Later inputs do not change the first fault. */
  lemma {:induction false} FaultStays(u: Utxo, inputs: seq<OutPoint>, n: nat)
    requires n <= |inputs| && !InputFault(u, inputs[..n]).Accepted?
    ensures InputFault(u, inputs) == InputFault(u, inputs[..n])
  {
    if n == |inputs| {
      assert inputs[..n] == inputs;
    } else {
      assert inputs[..|inputs| - 1][..n] == inputs[..n];
      FaultStays(u, inputs[..|inputs| - 1], n);
    }
  }

  /** The fault is that of the first bad input: one named before, else one that is not there, else one that takes the
      sum past 64 bits. */
  lemma {:induction false} FirstFault(u: Utxo, inputs: seq<OutPoint>, n: nat)
    requires n < |inputs| && Spendable(u, inputs[..n]) && InputSum(u, inputs[..n]) <= MAX_U64
    ensures inputs[n] in inputs[..n] ==> InputFault(u, inputs) == DuplicateInput
    ensures inputs[n] !in inputs[..n] && inputs[n] !in u ==> InputFault(u, inputs) == MissingInput
    ensures inputs[n] !in inputs[..n] && inputs[n] in u && InputSum(u, inputs[..n]) + u[inputs[n]].amount > MAX_U64 ==>
      InputFault(u, inputs) == ValueOverflow
  {
    hide Spendable, InputSum;
    var longer := inputs[..n + 1];
    assert longer[..n] == inputs[..n] && longer[n] == inputs[n];
    if !InputFault(u, longer).Accepted? {
      FaultStays(u, inputs, n + 1);
    }
  }

  /** Why a transaction is refused, or that it is not. */
  function FundingReason(tx: Transaction, u: Utxo): Reason {
    if !TxValid(tx) then InvalidTransaction
    else
      var fault := InputFault(u, tx.inputs);
      if !fault.Accepted? then fault
      else if InputSum(u, tx.inputs) < SumAmounts(tx.outputs) then InsufficientInputValue
      else Accepted
  }

  /** The answers about funding. */
  lemma {:induction false} FundingReasonIs(tx: Transaction, u: Utxo)
    ensures var answer := FundingReason(tx, u);
      && (answer.InvalidTransaction? <==> !TxValid(tx))
      && (answer.InsufficientInputValue? <==>
            && TxValid(tx) && Spendable(u, tx.inputs)
            && InputSum(u, tx.inputs) < SumAmounts(tx.outputs) && InputSum(u, tx.inputs) <= MAX_U64)
      && (TxValid(tx) && !InputFault(u, tx.inputs).Accepted? ==> answer == InputFault(u, tx.inputs))
  {
    hide TxValid, SumAmounts, InputSum, Spendable;
    FaultIsInputs(u, tx.inputs);
  }

  lemma {:induction false} FaultIsInputs(u: Utxo, inputs: seq<OutPoint>)
    ensures InputFault(u, inputs) in {Accepted, MissingInput, DuplicateInput, ValueOverflow}
  {
    if inputs != [] {
      FaultIsInputs(u, inputs[..|inputs| - 1]);
    }
  }

  /** The loop over the inputs, with the set of those seen and the running 64-bit sum. */
  method SumInputs(u: Utxo, inputs: seq<OutPoint>) returns (fault: Reason, sum: u64)
    ensures fault == InputFault(u, inputs)
    ensures fault.Accepted? ==> sum == InputSum(u, inputs)
  {
    hide Spendable;
    sum := 0;
    var seen: set<OutPoint> := {};
    for i := 0 to |inputs|
      invariant forall o :: o in seen <==> o in inputs[..i]
      invariant InputFault(u, inputs[..i]).Accepted?
      invariant (forall o :: o in inputs[..i] ==> o in u) && sum == InputSum(u, inputs[..i])
    {
      var point, longer := inputs[i], inputs[..i + 1];
      assert longer[..i] == inputs[..i] && longer[i] == point;
      if point in seen {
        FaultStays(u, inputs, i + 1);
        return DuplicateInput, sum;
      }
      if point !in u {
        FaultStays(u, inputs, i + 1);
        return MissingInput, sum;
      }
      if u[point].amount > MAX_U64 - sum {
        FaultStays(u, inputs, i + 1);
        return ValueOverflow, sum;
      }
      assert longer == inputs[..i] + [point];
      seen := seen + {point};
      sum := sum + u[point].amount;
    }
    assert inputs[..|inputs|] == inputs;
    fault := Accepted;
  }

  /** validate_for_mempool. It accepts exactly what the consensus check accepts, and gives the first fault otherwise. */
  method ValidateForMempool(tx: Transaction, u: Utxo) returns (reason: Reason)
    ensures reason.Accepted? <==> AgainstUtxo(tx, u)
    ensures reason == FundingReason(tx, u)
  {
    hide InputFault;
    var valid := ValidateTransaction(tx);
    if !valid {
      return InvalidTransaction;
    }
    var fault, sum := SumInputs(u, tx.inputs);
    if !fault.Accepted? {
      return fault;
    }
    var outputSum: u64 := 0;
    for i := 0 to |tx.outputs|
      invariant outputSum == SumAmounts(tx.outputs[..i])
    {
      SumPrefix(tx.outputs, i);
      assert tx.outputs[..i + 1][..i] == tx.outputs[..i];
      outputSum := outputSum + tx.outputs[i].amount;
    }
    assert tx.outputs[..|tx.outputs|] == tx.outputs;
    reason := if sum < outputSum then InsufficientInputValue else Accepted;
  }

  /** validate_transaction_witness, with ownership checked input by input. */
  method ValidateTransactionWitness(tx: Transaction, u: Utxo) returns (ok: bool)
    ensures ok == WitnessOk(tx, u)
  {
    hide SigningMessage, FundingReason, InputSum, OwnsInput, TxValid, SumAmounts;
    if |tx.witnesses| != |tx.inputs| {
      return false;
    }
    for i := 0 to |tx.witnesses|
      invariant forall k :: 0 <= k < i ==> var w := tx.witnesses[k];
        w.publicKey != [] && w.signature != [] && KeyParses(w.publicKey)
    {
      var w := tx.witnesses[i];
      if w.publicKey == [] || w.signature == [] || !KeyParses(w.publicKey) {
        assert w in tx.witnesses;
        return false;
      }
    }
    var reason := ValidateForMempool(tx, u);
    if !reason.Accepted? {
      return false;
    }
    for i := 0 to |tx.inputs|
      invariant forall k :: 0 <= k < i ==> OwnsInput(tx, k, u[tx.inputs[k]])
    {
      if !OwnsInput(tx, i, u[tx.inputs[i]]) {
        return false;
      }
    }
    ok := true;
  }

  // ----- Facts about the effect of a transaction -----

  /** Only the outputs it spends matter to a transaction. */
  lemma {:induction false} InputSumLocal(u: Utxo, v: Utxo, inputs: seq<OutPoint>)
    requires forall o :: o in inputs ==> o in u && o in v && u[o] == v[o]
    ensures InputSum(u, inputs) == InputSum(v, inputs)
  {
    if inputs != [] {
      InputSumLocal(u, v, inputs[..|inputs| - 1]);
    }
  }

  lemma {:induction false} WitnessLocal(tx: Transaction, u: Utxo, v: Utxo)
    requires WitnessOk(tx, u)
    requires forall o :: o in tx.inputs ==> o in v && u[o] == v[o]
    ensures WitnessOk(tx, v)
  {
    InputSumLocal(u, v, tx.inputs);
    forall i | 0 <= i < |tx.inputs| ensures OwnsInput(tx, i, v[tx.inputs[i]]) {
      assert tx.inputs[i] in tx.inputs;
    }
  }

  lemma {:induction false} TotalAfterSpending(u: Utxo, inputs: seq<OutPoint>)
    requires Spendable(u, inputs)
    ensures Total(u - (set o | o in inputs)) + InputSum(u, inputs) == Total(u)
  {
    if inputs == [] {
      assert u - (set o | o in inputs) == u;
    } else {
      var front, last := inputs[..|inputs| - 1], inputs[|inputs| - 1];
      TotalAfterSpending(u, front);
      var v := u - (set o | o in front);
      assert inputs == front + [last];
      assert last in v;
      SumRemove(v, Amount, last);
      assert v - {last} == u - (set o | o in inputs);
    }
  }

  lemma {:induction false} OutputsExtend(txid: Hash256, outputs: Seq32<TxOutput>, n: nat)
    requires n < |outputs|
    ensures Outputs(txid, outputs[..n + 1]) == Outputs(txid, outputs[..n])[OutPoint(txid, n) := outputs[n]]
  {
    assert outputs[..n + 1][..n] == outputs[..n];
  }

  lemma {:induction false} AddOneOutput(u: Utxo, txid: Hash256, outputs: Seq32<TxOutput>, n: nat)
    requires n < |outputs|
    ensures (u + Outputs(txid, outputs[..n]))[OutPoint(txid, n) := outputs[n]] == u + Outputs(txid, outputs[..n + 1])
  {
    hide Outputs;
    OutputsExtend(txid, outputs, n);
    InsertIntoUnion(u, Outputs(txid, outputs[..n]), OutPoint(txid, n), outputs[n]);
  }

  lemma {:induction false} FreshOneMore(u: Utxo, txid: Hash256, outputs: Seq32<TxOutput>, n: nat)
    requires n < |outputs| && Fresh(u, txid, n)
    ensures OutPoint(txid, n) !in u + Outputs(txid, outputs[..n]) <==> Fresh(u, txid, n + 1)
  {
    forall o | o in u && o.txid == txid && o.index < n + 1 ensures o == OutPoint(txid, n) {}
  }

  lemma {:induction false} TotalOfOutputs(txid: Hash256, outputs: Seq32<TxOutput>)
    ensures Total(Outputs(txid, outputs)) == SumAmounts(outputs)
  {
    if outputs == [] {
      assert Outputs(txid, outputs) == map[];
    } else {
      var n := |outputs| - 1;
      TotalOfOutputs(txid, outputs[..n]);
      OutputsExtend(txid, outputs, n);
      SumInsert(Outputs(txid, outputs[..n]), Amount, OutPoint(txid, n), outputs[n]);
      assert outputs[..n + 1] == outputs;
    }
  }

  lemma {:induction false} FreshIsDisjoint(u: Utxo, tx: Transaction)
    requires Fresh(u, Txid(tx), |tx.outputs|)
    ensures u.Keys !! Created(tx).Keys
  {
  }

  /** A transaction moves value and burns its fee. */
  lemma {:induction false} ApplyTxTotal(u: Utxo, tx: Transaction)
    requires ApplyTx(u, tx).Some?
    ensures Total(ApplyTx(u, tx).value) + InputSum(u, tx.inputs) == Total(u) + SumAmounts(tx.outputs)
  {
    TotalAfterSpending(u, tx.inputs);
    TotalOfOutputs(Txid(tx), tx.outputs);
    FreshIsDisjoint(u - Spent(tx), tx);
    SumUnion(u - Spent(tx), Created(tx), Amount);
  }

  /** The inputs of a transaction are worth no more than the whole set. */
  lemma {:induction false} InputsWithinTotal(u: Utxo, inputs: seq<OutPoint>)
    requires Spendable(u, inputs)
    ensures InputSum(u, inputs) <= Total(u)
  {
    TotalAfterSpending(u, inputs);
  }
}
