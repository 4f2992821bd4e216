/** The context-free checks on a block payload. */
module Validation {
  import opened Types
  import opened Bytes
  import opened Encodings
  import opened Transactions
  import opened Payload
  import opened Utxos
  import opened Apply

  datatype BlockValidationError =
    | Undecodable(error: DecodeError)
    | CoinbaseNotFirst(txIndex: nat)
    | NoOutputs(txIndex: nat)
    | SpendsTwice(txIndex: nat, outpoint: OutPoint)
    | ZeroOutput(txIndex: nat, outputIndex: nat)
    | SumOverflow(txIndex: nat)

  /** The transaction may stand at its place, as far as its kind goes. */
  ghost predicate RightKind(index: nat, tx: Transaction) {
    if tx.IsCoinbase() then index == 0 else tx.outputs != []
  }

  /** The first `n` inputs spend different outpoints. */
  ghost predicate InputsDiffer(tx: Transaction, n: nat) {
    n <= |tx.inputs| && forall i {:trigger SpentBefore(tx.inputs, i)} :: 0 <= i < n ==> !SpentBefore(tx.inputs, i)
  }

  /** The first `n` outputs have values, and together they fit a word. */
  ghost predicate OutputsFit(tx: Transaction, n: nat) {
    && n <= |tx.outputs| && Created(tx.outputs, n) <= U64_MAX
    && forall i {:trigger tx.outputs[i]} :: 0 <= i < n ==> tx.outputs[i].value > 0
  }

  /** Whether `tx` may stand at position `index` of a block, whatever the ledger state. */
  ghost predicate WellStructured(index: nat, tx: Transaction) {
    RightKind(index, tx) && InputsDiffer(tx, |tx.inputs|) && OutputsFit(tx, |tx.outputs|)
  }

  /** The payload decodes into transactions that may each stand where they do. */
  ghost predicate PayloadOk(payload: Bytes) {
    && TxsOf(payload).Ok?
    && forall i {:trigger WellStructured(i, TxsOf(payload).value[i])} :: 0 <= i < |TxsOf(payload).value| ==>
         WellStructured(i, TxsOf(payload).value[i])
  }

  /** The error is the first thing wrong with the transaction, in the order of the checks. */
  ghost predicate Explains(e: BlockValidationError, index: nat, tx: Transaction) {
    match e
    case Undecodable(_) => false
    case CoinbaseNotFirst(i) => i == index && tx.IsCoinbase() && index != 0
    case NoOutputs(i) => i == index && !tx.IsCoinbase() && tx.outputs == []
    case SpendsTwice(i, o) =>
      && i == index && RightKind(index, tx)
      && exists j ::
           0 <= j < |tx.inputs| && InputsDiffer(tx, j) && SpentBefore(tx.inputs, j) && tx.inputs[j].outpoint == o
    case ZeroOutput(i, j) =>
      && i == index && RightKind(index, tx) && InputsDiffer(tx, |tx.inputs|)
      && j < |tx.outputs| && OutputsFit(tx, j) && tx.outputs[j].value == 0
    case SumOverflow(i) =>
      && i == index && RightKind(index, tx) && InputsDiffer(tx, |tx.inputs|)
      && exists j :: 0 <= j < |tx.outputs| && OutputsFit(tx, j) && Created(tx.outputs, j + 1) > U64_MAX
  }

  /** There is only one first thing wrong. */
  lemma ExplainsOne(e: BlockValidationError, f: BlockValidationError, index: nat, tx: Transaction)
    requires Explains(e, index, tx) && Explains(f, index, tx)
    ensures e == f
  {
    if e.SpendsTwice? && f.SpendsTwice? {
      var i :| && 0 <= i < |tx.inputs| && InputsDiffer(tx, i)
                 && SpentBefore(tx.inputs, i) && tx.inputs[i].outpoint == e.outpoint;
      var j :| && 0 <= j < |tx.inputs| && InputsDiffer(tx, j)
                 && SpentBefore(tx.inputs, j) && tx.inputs[j].outpoint == f.outpoint;
      assert i == j;
    } else if e.SumOverflow? && f.ZeroOutput? {
      FitsOrNot(tx, e, f);
    } else if e.ZeroOutput? && f.SumOverflow? {
      FitsOrNot(tx, f, e);
    }
  }

  lemma FitsOrNot(tx: Transaction, e: BlockValidationError, f: BlockValidationError)
    requires && e.SumOverflow? && f.ZeroOutput? && f.outputIndex < |tx.outputs| && OutputsFit(tx, f.outputIndex)
             && tx.outputs[f.outputIndex].value == 0
    ensures !exists j :: 0 <= j < |tx.outputs| && OutputsFit(tx, j) && Created(tx.outputs, j + 1) > U64_MAX
  {
    forall j | 0 <= j < |tx.outputs| && OutputsFit(tx, j) ensures Created(tx.outputs, j + 1) <= U64_MAX {
      if j + 1 <= f.outputIndex {
        CreatedMonotone(tx.outputs, j + 1, f.outputIndex);
      }
    }
  }

  /** A transaction is refused exactly when it is ill-structured, for the first thing wrong. */
  method ValidateTxStructure(index: nat, tx: Transaction) returns (e: Option<BlockValidationError>)
    ensures e.None? <==> WellStructured(index, tx)
    ensures e.Some? ==> Explains(e.value, index, tx)
  {
    if tx.IsCoinbase() {
      if index != 0 {
        return Some(CoinbaseNotFirst(index));
      }
    } else if tx.outputs == [] {
      return Some(NoOutputs(index));
    }
    var seen: set<OutPoint> := {};
    for i := 0 to |tx.inputs|
      invariant forall o :: o in seen <==> exists j :: 0 <= j < i && tx.inputs[j].outpoint == o
      invariant forall j {:trigger SpentBefore(tx.inputs, j)} :: 0 <= j < i ==> !SpentBefore(tx.inputs, j)
    {
      var outpoint := tx.inputs[i].outpoint;
      if outpoint in seen {
        assert SpentBefore(tx.inputs, i) && InputsDiffer(tx, i);
        return Some(SpendsTwice(index, outpoint));
      }
      assert !SpentBefore(tx.inputs, i);
      seen := seen + {outpoint};
    }
    var sum: int := 0;
    for i := 0 to |tx.outputs|
      invariant sum == Created(tx.outputs, i) <= U64_MAX
      invariant forall j {:trigger tx.outputs[j]} :: 0 <= j < i ==> tx.outputs[j].value > 0
    {
      var output := tx.outputs[i];
      if output.value == 0 {
        assert OutputsFit(tx, i);
        return Some(ZeroOutput(index, i));
      }
      if sum + output.value > U64_MAX {
        assert OutputsFit(tx, i) && Created(tx.outputs, i + 1) > U64_MAX;
        CreatedMonotone(tx.outputs, i + 1, |tx.outputs|);
        return Some(SumOverflow(index));
      }
      sum := sum + output.value;
    }
    e := None;
  }

  lemma {:induction false} CreatedMonotone(outputs: seq<TxOutput>, i: nat, n: nat)
    requires i <= n <= |outputs|
    ensures Created(outputs, i) <= Created(outputs, n)
    decreases n
  {
    if i < n {
      CreatedMonotone(outputs, i, n - 1);
    }
  }

  /** Check a whole payload: the first transaction that fails is reported. */
  method ValidateBlockPayload(payload: Bytes) returns (e: Option<BlockValidationError>)
    ensures e.None? <==> PayloadOk(payload)
    ensures e.Some? ==>
              match TxsOf(payload)
              case Err(d) => e.value == Undecodable(d)
              case Ok(txs) => exists i :: 0 <= i < |txs| && Explains(e.value, i, txs[i])
                                          && forall j :: 0 <= j < i ==> WellStructured(j, txs[j])
  {
    hide TxsOf, WellStructured, Explains;
    var decoded := DecodeBlockPayload(payload);
    if decoded.Err? {
      return Some(Undecodable(decoded.error));
    }
    var txs := decoded.value;
    for i := 0 to |txs|
      invariant forall j :: 0 <= j < i ==> WellStructured(j, txs[j])
    {
      e := ValidateTxStructure(i, txs[i]);
      if e.Some? {
        return;
      }
    }
    e := None;
  }

  lemma {:induction false} RegularsApplied(u: Utxo, txs: seq<Transaction>, n: nat, i: nat)
    requires i < n <= |txs| && Regulars(u, txs, n).Ok?
    ensures txs[i].IsCoinbase() ==> i == 0
    ensures !txs[i].IsCoinbase() ==> Regulars(u, txs, i).Ok? && Regular(Regulars(u, txs, i).value.utxo, txs[i]).Ok?
  {
    hide Regular;
    if i < n - 1 {
      RegularsApplied(u, txs, n - 1, i);
    }
  }

  lemma SpendStructured(u: Utxo, tx: Transaction, index: nat)
    requires !tx.IsCoinbase() && Regular(u, tx).Ok?
    ensures WellStructured(index, tx)
  {
    RegularIff(u, tx);
    hide Regular;
    forall i | 0 <= i < |tx.inputs| ensures !SpentBefore(tx.inputs, i) {
      assert GoodInput(u, tx, i);
    }
  }

  lemma CoinbaseStructured(u: Utxo, cb: Transaction, allowed: int)
    requires cb.IsCoinbase() && Coinbase(u, cb, allowed).Ok?
    ensures WellStructured(0, cb)
  {
    OutputsPassIff(cb, |cb.outputs|);
  }

  /** Whatever the ledger applies, the structural validator lets through. */
  lemma AppliedIsStructured(u: Utxo, txs: seq<Transaction>, subsidy: u64)
    requires BlockOutcome(u, txs, subsidy).Ok? && AllEncodable(txs)
    ensures PayloadOk(EncodePayload(txs))
  {
    PayloadRoundTrip(txs);
    forall i | 0 <= i < |txs| ensures WellStructured(i, txs[i]) {
      RegularsApplied(u, txs, |txs|, i);
      var a := Regulars(u, txs, |txs|).value;
      if txs[i].IsCoinbase() {
        CoinbaseStructured(a.utxo, txs[0], subsidy + a.value);
      } else {
        SpendStructured(Regulars(u, txs, i).value.utxo, txs[i], i);
      }
    }
  }
}
