/** Applying one block's transactions to the unspent outputs. */
module Apply {
  import opened Types
  import opened Encodings
  import opened Transactions
  import opened Utxos

  datatype LedgerError =
    | MissingInput(outpoint: OutPoint)
    | DuplicateInput(outpoint: OutPoint)
    | OutputAlreadyExists(outpoint: OutPoint)
    | BadSignature(tx: TxId, input: nat)
    | ValueNotConserved(tx: TxId, inputs: int, outputs: int)
    | ValueOverflow
    | EmptyTransaction(tx: TxId)
    | ZeroValueOutput(tx: TxId)
    | MisplacedCoinbase(tx: TxId)
    | CoinbaseOverspend(claimed: int, allowed: int)
    | Payload(error: DecodeError)

  datatype BlockSummary = BlockSummary(fees: int, minted: int)

  // ------------------------------------------------------------------
  // What applying must give, with unbounded sums

  /** Value of the outputs spent by the first `n` inputs. */
  function Spent(u: Utxo, inputs: seq<TxInput>, n: nat): int
    requires n <= |inputs|
  {
    if n == 0 then 0
    else Spent(u, inputs, n - 1) + (if inputs[n - 1].outpoint in u then u[inputs[n - 1].outpoint].value else 0)
  }

  /** Value of the first `n` outputs. */
  function Created(outputs: seq<TxOutput>, n: nat): int
    requires n <= |outputs|
  {
    if n == 0 then 0 else Created(outputs, n - 1) + outputs[n - 1].value
  }

  predicate SpentBefore(inputs: seq<TxInput>, n: nat)
    requires n < |inputs|
  {
    exists j :: 0 <= j < n && inputs[j].outpoint == inputs[n].outpoint
  }

  /** The first thing wrong with the first `n` inputs: spent twice, not there, not signed
      by its owner, or more value than a word holds. */
  function InputsError(u: Utxo, tx: Transaction, n: nat): Option<LedgerError>
    requires n <= |tx.inputs|
  {
    if n == 0 then None
    else
      var earlier, input := InputsError(u, tx, n - 1), tx.inputs[n - 1];
      if earlier.Some? then earlier
      else if SpentBefore(tx.inputs, n - 1) then Some(DuplicateInput(input.outpoint))
      else if input.outpoint !in u then Some(MissingInput(input.outpoint))
      else if !Verify(u[input.outpoint].owner, SigHash(tx), input.signature) then Some(BadSignature(TxIdOf(tx), n - 1))
      else if Spent(u, tx.inputs, n) > U64_MAX then Some(ValueOverflow)
      else None
  }

  /** The first thing wrong with the first `n` outputs. */
  function OutputsError(tx: Transaction, n: nat): Option<LedgerError>
    requires n <= |tx.outputs|
  {
    if n == 0 then None
    else
      var earlier := OutputsError(tx, n - 1);
      if earlier.Some? then earlier
      else if tx.outputs[n - 1].value == 0 then Some(ZeroValueOutput(TxIdOf(tx)))
      else if Created(tx.outputs, n) > U64_MAX then Some(ValueOverflow)
      else None
  }

  function WithoutInputs(u: Utxo, inputs: seq<TxInput>, n: nat): Utxo
    requires n <= |inputs|
  {
    if n == 0 then u else WithoutInputs(u, inputs, n - 1) - {inputs[n - 1].outpoint}
  }

  /** The outpoint of output `i`; the index is kept in 32 bits. */
  function OutPointAt(txid: TxId, i: nat): OutPoint {
    OutPoint(txid, i % TWO_32)
  }

  /** The first `n` outputs added, or the first outpoint that was already there. */
  function WithOutputs(u: Utxo, txid: TxId, outputs: seq<TxOutput>, n: nat): Result<Utxo, LedgerError>
    requires n <= |outputs|
  {
    if n == 0 then Ok(u)
    else
      match WithOutputs(u, txid, outputs, n - 1)
      case Err(e) => Err(e)
      case Ok(v) =>
        if OutPointAt(txid, n - 1) in v then Err(OutputAlreadyExists(OutPointAt(txid, n - 1)))
        else Ok(v[OutPointAt(txid, n - 1) := outputs[n - 1]])
  }

  datatype Applied = Applied(utxo: Utxo, value: int)

  /** A spend: the new set and the fee, or the first rule it breaks. */
  function Regular(u: Utxo, tx: Transaction): Result<Applied, LedgerError> {
    var (ins, outs) := (|tx.inputs|, |tx.outputs|);
    if ins == 0 || outs == 0 then Err(EmptyTransaction(TxIdOf(tx)))
    else if InputsError(u, tx, ins).Some? then Err(InputsError(u, tx, ins).value)
    else if OutputsError(tx, outs).Some? then Err(OutputsError(tx, outs).value)
    else
      var spent, created := Spent(u, tx.inputs, ins), Created(tx.outputs, outs);
      if created > spent then Err(ValueNotConserved(TxIdOf(tx), spent, created))
      else
        match WithOutputs(WithoutInputs(u, tx.inputs, ins), TxIdOf(tx), tx.outputs, outs)
        case Err(e) => Err(e)
        case Ok(v) => Ok(Applied(v, spent - created))
  }

  /** A coinbase: the new set and the value minted, at most `allowed`. */
  function Coinbase(u: Utxo, cb: Transaction, allowed: int): Result<Applied, LedgerError> {
    var outs := |cb.outputs|;
    if OutputsError(cb, outs).Some? then Err(OutputsError(cb, outs).value)
    else
      var claimed := Created(cb.outputs, outs);
      if claimed > allowed then Err(CoinbaseOverspend(claimed, allowed))
      else
        match WithOutputs(u, TxIdOf(cb), cb.outputs, outs)
        case Err(e) => Err(e)
        case Ok(v) => Ok(Applied(v, claimed))
  }

  /** The first `n` transactions, a leading coinbase set aside: the set and the fees so far. */
  function Regulars(u: Utxo, txs: seq<Transaction>, n: nat): Result<Applied, LedgerError>
    requires n <= |txs|
  {
    if n == 0 then Ok(Applied(u, 0))
    else
      match Regulars(u, txs, n - 1)
      case Err(e) => Err(e)
      case Ok(a) =>
        var tx := txs[n - 1];
        if tx.IsCoinbase() then (if n == 1 then Ok(a) else Err(MisplacedCoinbase(TxIdOf(tx))))
        else match Regular(a.utxo, tx)
             case Err(e) => Err(e)
             case Ok(b) =>
               if a.value + b.value > U64_MAX then Err(ValueOverflow) else Ok(Applied(b.utxo, a.value + b.value))
  }

  datatype BlockApplied = BlockApplied(utxo: Utxo, summary: BlockSummary)

  /** A whole block: regular transactions in order, then the coinbase. */
  function BlockOutcome(u: Utxo, txs: seq<Transaction>, subsidy: u64): Result<BlockApplied, LedgerError> {
    match Regulars(u, txs, |txs|)
    case Err(e) => Err(e)
    case Ok(a) =>
      if subsidy + a.value > U64_MAX then Err(ValueOverflow)
      else if txs == [] || !txs[0].IsCoinbase() then Ok(BlockApplied(a.utxo, BlockSummary(a.value, 0)))
      else match Coinbase(a.utxo, txs[0], subsidy + a.value)
           case Err(e) => Err(e)
           case Ok(b) => Ok(BlockApplied(b.utxo, BlockSummary(a.value, b.value)))
  }

  // ------------------------------------------------------------------
  // The procedures

  method AddOutputs(staging: UtxoSet, txid: TxId, tx: Transaction) returns (r: Option<LedgerError>)
    modifies staging
    ensures match WithOutputs(old(staging.entries), txid, tx.outputs, |tx.outputs|)
            case Err(e) => r == Some(e)
            case Ok(v) => r == None && staging.entries == v
  {
    ghost var start := staging.entries;
    for i := 0 to |tx.outputs|
      invariant WithOutputs(start, txid, tx.outputs, i) == Ok(staging.entries)
    {
      var outpoint := OutPointAt(txid, i);
      var previous := staging.Insert(outpoint, tx.outputs[i]);
      if previous.Some? {
        OutputsStop(start, txid, tx.outputs, i + 1, |tx.outputs|);
        return Some(OutputAlreadyExists(outpoint));
      }
    }
    r := None;
  }

  lemma {:induction false} OutputsStop(u: Utxo, txid: TxId, outputs: seq<TxOutput>, i: nat, n: nat)
    requires i <= n <= |outputs| && WithOutputs(u, txid, outputs, i).Err?
    ensures WithOutputs(u, txid, outputs, n) == WithOutputs(u, txid, outputs, i)
    decreases n
  {
    if i < n {
      OutputsStop(u, txid, outputs, i, n - 1);
    }
  }

  lemma {:induction false} InputsStop(u: Utxo, tx: Transaction, i: nat, n: nat)
    requires i <= n <= |tx.inputs| && InputsError(u, tx, i).Some?
    ensures InputsError(u, tx, n) == InputsError(u, tx, i)
    decreases n
  {
    if i < n {
      InputsStop(u, tx, i, n - 1);
    }
  }

  lemma {:induction false} OutputsErrorStop(tx: Transaction, i: nat, n: nat)
    requires i <= n <= |tx.outputs| && OutputsError(tx, i).Some?
    ensures OutputsError(tx, n) == OutputsError(tx, i)
    decreases n
  {
    if i < n {
      OutputsErrorStop(tx, i, n - 1);
    }
  }

  /** `seen` holds the outpoints of the first `i` inputs. */
  ghost predicate SeenAre(seen: set<OutPoint>, inputs: seq<TxInput>, i: nat) {
    i <= |inputs| && forall o :: o in seen <==> exists j :: 0 <= j < i && inputs[j].outpoint == o
  }

  lemma NoneSeen(u: Utxo, tx: Transaction)
    ensures SeenAre({}, tx.inputs, 0) && InputsError(u, tx, 0) == None && Spent(u, tx.inputs, 0) == 0
  {
  }

  /** What the next input adds to a prefix that passed. */
  lemma InputStep(u: Utxo, tx: Transaction, i: nat, seen: set<OutPoint>)
    requires i < |tx.inputs| && InputsError(u, tx, i) == None && SeenAre(seen, tx.inputs, i)
    ensures SeenAre(seen + {tx.inputs[i].outpoint}, tx.inputs, i + 1)
    ensures var input, sum := tx.inputs[i], Spent(u, tx.inputs, i);
            var value := if input.outpoint in u then u[input.outpoint].value else 0;
            var error := if input.outpoint in seen then Some(DuplicateInput(input.outpoint))
                         else if input.outpoint !in u then Some(MissingInput(input.outpoint))
                         else if !Verify(u[input.outpoint].owner, SigHash(tx), input.signature)
                         then Some(BadSignature(TxIdOf(tx), i))
                         else if sum + value > U64_MAX then Some(ValueOverflow) else None;
            && InputsError(u, tx, i + 1) == error && Spent(u, tx.inputs, i + 1) == sum + value
            && (error.Some? ==> InputsError(u, tx, |tx.inputs|) == error)
  {
    hide Verify, SigHash, TxIdOf;
    assert tx.inputs[i].outpoint in seen <==> SpentBefore(tx.inputs, i);
    forall o ensures o in seen + {tx.inputs[i].outpoint} <==> exists j :: 0 <= j < i + 1 && tx.inputs[j].outpoint == o {
      if o == tx.inputs[i].outpoint {
        assert 0 <= i < i + 1 && tx.inputs[i].outpoint == o;
      }
    }
    if InputsError(u, tx, i + 1).Some? {
      InputsStop(u, tx, i + 1, |tx.inputs|);
    }
  }

  /** Check every input and add up what they spend. */
  method CheckInputs(staging: UtxoSet, tx: Transaction) returns (r: Result<int, LedgerError>)
    ensures match InputsError(staging.entries, tx, |tx.inputs|)
            case Some(e) => r == Err(e)
            case None => r == Ok(Spent(staging.entries, tx.inputs, |tx.inputs|))
  {
    hide InputsError, Spent, SeenAre, Verify, SigHash, TxIdOf;
    var sighash := SigHash(tx);
    var seen: set<OutPoint> := {};
    var sumIn: int := 0;
    ghost var u := staging.entries;
    NoneSeen(u, tx);
    for i := 0 to |tx.inputs|
      invariant InputsError(u, tx, i) == None && sumIn == Spent(u, tx.inputs, i)
      invariant SeenAre(seen, tx.inputs, i)
    {
      var input := tx.inputs[i];
      InputStep(u, tx, i, seen);
      if input.outpoint in seen {
        return Err(DuplicateInput(input.outpoint));
      }
      seen := seen + {input.outpoint};
      var prev := staging.Get(input.outpoint);
      if prev.None? {
        return Err(MissingInput(input.outpoint));
      }
      if !Verify(prev.value.owner, sighash, input.signature) {
        return Err(BadSignature(TxIdOf(tx), i));
      }
      if sumIn + prev.value.value > U64_MAX {
        return Err(ValueOverflow);
      }
      sumIn := sumIn + prev.value.value;
    }
    r := Ok(sumIn);
  }

  /** Check every output and add up what they create. */
  method CheckOutputs(tx: Transaction) returns (r: Result<int, LedgerError>)
    ensures match OutputsError(tx, |tx.outputs|)
            case Some(e) => r == Err(e)
            case None => r == Ok(Created(tx.outputs, |tx.outputs|))
  {
    var sumOut: int := 0;
    for i := 0 to |tx.outputs|
      invariant OutputsError(tx, i) == None && sumOut == Created(tx.outputs, i)
    {
      var output := tx.outputs[i];
      if output.value == 0 {
        OutputsErrorStop(tx, i + 1, |tx.outputs|);
        return Err(ZeroValueOutput(TxIdOf(tx)));
      }
      if sumOut + output.value > U64_MAX {
        OutputsErrorStop(tx, i + 1, |tx.outputs|);
        return Err(ValueOverflow);
      }
      sumOut := sumOut + output.value;
    }
    r := Ok(sumOut);
  }

  /** Validate and apply a regular transaction, returning its fee. */
  method ApplyRegular(staging: UtxoSet, tx: Transaction) returns (r: Result<int, LedgerError>)
    modifies staging
    ensures match Regular(old(staging.entries), tx)
            case Err(e) => r == Err(e)
            case Ok(a) => r == Ok(a.value) && staging.entries == a.utxo
  {
    hide InputsError, OutputsError, WithOutputs, Spent, Created;
    if tx.inputs == [] || tx.outputs == [] {
      return Err(EmptyTransaction(TxIdOf(tx)));
    }
    var sumIn := CheckInputs(staging, tx);
    if sumIn.Err? {
      return Err(sumIn.error);
    }
    var sumOut := CheckOutputs(tx);
    if sumOut.Err? {
      return Err(sumOut.error);
    }
    if sumOut.value > sumIn.value {
      return Err(ValueNotConserved(TxIdOf(tx), sumIn.value, sumOut.value));
    }
    ghost var start := staging.entries;
    for i := 0 to |tx.inputs|
      invariant staging.entries == WithoutInputs(start, tx.inputs, i)
    {
      var removed := staging.Remove(tx.inputs[i].outpoint);
    }
    var failed := AddOutputs(staging, TxIdOf(tx), tx);
    if failed.Some? {
      return Err(failed.value);
    }
    r := Ok(sumIn.value - sumOut.value);
  }

  /** Validate and apply a coinbase, returning the value minted. */
  method ApplyCoinbase(staging: UtxoSet, cb: Transaction, allowed: int) returns (r: Result<int, LedgerError>)
    modifies staging
    ensures match Coinbase(old(staging.entries), cb, allowed)
            case Err(e) => r == Err(e)
            case Ok(a) => r == Ok(a.value) && staging.entries == a.utxo
  {
    hide OutputsError, WithOutputs, Created;
    var claimed := CheckOutputs(cb);
    if claimed.Err? {
      return Err(claimed.error);
    }
    if claimed.value > allowed {
      return Err(CoinbaseOverspend(claimed.value, allowed));
    }
    var failed := AddOutputs(staging, TxIdOf(cb), cb);
    if failed.Some? {
      return Err(failed.value);
    }
    r := Ok(claimed.value);
  }

  lemma {:induction false} RegularsStop(u: Utxo, txs: seq<Transaction>, i: nat, n: nat)
    requires i <= n <= |txs| && Regulars(u, txs, i).Err?
    ensures Regulars(u, txs, n) == Regulars(u, txs, i)
    decreases n
  {
    if i < n {
      RegularsStop(u, txs, i, n - 1);
    }
  }

  /** Apply one block's transactions atomically: on any error the set is left as it was. */
  method ApplyBlock(utxo: UtxoSet, txs: seq<Transaction>, subsidy: u64) returns (r: Result<BlockSummary, LedgerError>)
    modifies utxo
    ensures match BlockOutcome(old(utxo.entries), txs, subsidy)
            case Err(e) => r == Err(e) && utxo.entries == old(utxo.entries)
            case Ok(a) => r == Ok(a.summary) && utxo.entries == a.utxo
  {
    hide Regular, Coinbase;
    var staging := new UtxoSet.Clone(utxo.entries);
    var coinbase: Option<Transaction> := None;
    var totalFees: int := 0;
    ghost var u := utxo.entries;
    for i := 0 to |txs|
      invariant fresh(staging) && utxo.entries == u
      invariant Regulars(u, txs, i) == Ok(Applied(staging.entries, totalFees))
      invariant coinbase == if i > 0 && txs[0].IsCoinbase() then Some(txs[0]) else None
    {
      var tx := txs[i];
      if tx.IsCoinbase() {
        if i != 0 {
          RegularsStop(u, txs, i + 1, |txs|);
          return Err(MisplacedCoinbase(TxIdOf(tx)));
        }
        coinbase := Some(tx);
        continue;
      }
      var fee := ApplyRegular(staging, tx);
      if fee.Err? {
        RegularsStop(u, txs, i + 1, |txs|);
        return Err(fee.error);
      }
      if totalFees + fee.value > U64_MAX {
        RegularsStop(u, txs, i + 1, |txs|);
        return Err(ValueOverflow);
      }
      totalFees := totalFees + fee.value;
    }
    if subsidy + totalFees > U64_MAX {
      return Err(ValueOverflow);
    }
    var minted: int := 0;
    if coinbase.Some? {
      var claimed := ApplyCoinbase(staging, coinbase.value, subsidy + totalFees);
      if claimed.Err? {
        return Err(claimed.error);
      }
      minted := claimed.value;
    }
    utxo.entries := staging.entries;
    r := Ok(BlockSummary(totalFees, minted));
  }

  // ------------------------------------------------------------------
  // Conservation

  lemma {:induction false} WithoutInputsKeys(u: Utxo, inputs: seq<TxInput>, n: nat)
    requires n <= |inputs|
    ensures forall o ::
              o in WithoutInputs(u, inputs, n) <==> o in u && forall j :: 0 <= j < n ==> inputs[j].outpoint != o
    ensures forall o :: o in WithoutInputs(u, inputs, n) ==> WithoutInputs(u, inputs, n)[o] == u[o]
  {
    if n > 0 {
      WithoutInputsKeys(u, inputs, n - 1);
    }
  }

  /** Removing distinct present outputs takes exactly their value away. */
  lemma {:induction false} InputsTakeValue(u: Utxo, tx: Transaction, n: nat)
    requires n <= |tx.inputs| && InputsError(u, tx, n).None?
    ensures Total(WithoutInputs(u, tx.inputs, n)) == Total(u) - Spent(u, tx.inputs, n)
    ensures Spent(u, tx.inputs, n) <= U64_MAX
  {
    if n > 0 {
      InputsTakeValue(u, tx, n - 1);
      WithoutInputsKeys(u, tx.inputs, n - 1);
      TotalRemove(WithoutInputs(u, tx.inputs, n - 1), tx.inputs[n - 1].outpoint);
    }
  }

  lemma {:induction false} OutputsAddValue(u: Utxo, txid: TxId, outputs: seq<TxOutput>, n: nat)
    requires n <= |outputs| && WithOutputs(u, txid, outputs, n).Ok?
    ensures Total(WithOutputs(u, txid, outputs, n).value) == Total(u) + Created(outputs, n)
  {
    if n > 0 {
      OutputsAddValue(u, txid, outputs, n - 1);
      TotalAdd(WithOutputs(u, txid, outputs, n - 1).value, OutPointAt(txid, n - 1), outputs[n - 1]);
    }
  }

  /** A spend loses exactly its fee. */
  lemma RegularConserves(u: Utxo, tx: Transaction)
    requires Regular(u, tx).Ok?
    ensures var a := Regular(u, tx).value;
            a.value >= 0 && Total(a.utxo) == Total(u) - a.value
  {
    hide InputsError, OutputsError, WithOutputs, Total, Spent, Created, WithoutInputs;
    InputsTakeValue(u, tx, |tx.inputs|);
    OutputsAddValue(WithoutInputs(u, tx.inputs, |tx.inputs|), TxIdOf(tx), tx.outputs, |tx.outputs|);
  }

  lemma {:induction false} CreatedNonNegative(outputs: seq<TxOutput>, n: nat)
    requires n <= |outputs|
    ensures Created(outputs, n) >= 0
  {
    if n > 0 {
      CreatedNonNegative(outputs, n - 1);
    }
  }

  /** A coinbase adds exactly what it mints, within its allowance. */
  lemma CoinbaseMints(u: Utxo, cb: Transaction, allowed: int)
    requires Coinbase(u, cb, allowed).Ok?
    ensures var a := Coinbase(u, cb, allowed).value;
            0 <= a.value <= allowed && Total(a.utxo) == Total(u) + a.value
  {
    hide OutputsError, WithOutputs, Total, Created;
    CreatedNonNegative(cb.outputs, |cb.outputs|);
    OutputsAddValue(u, TxIdOf(cb), cb.outputs, |cb.outputs|);
  }

  lemma {:induction false} RegularsConserve(u: Utxo, txs: seq<Transaction>, n: nat)
    requires n <= |txs| && Regulars(u, txs, n).Ok?
    ensures var a := Regulars(u, txs, n).value;
            a.value >= 0 && Total(a.utxo) == Total(u) - a.value
  {
    hide Regular, Total;
    if n > 0 {
      RegularsConserve(u, txs, n - 1);
      var a := Regulars(u, txs, n - 1).value;
      if !txs[n - 1].IsCoinbase() {
        RegularConserves(a.utxo, txs[n - 1]);
      }
    }
  }

  /** A block changes the total by what it mints less the fees it takes, and mints at most
      the subsidy and those fees: the supply grows by at most the subsidy. */
  lemma BlockConserves(u: Utxo, txs: seq<Transaction>, subsidy: u64)
    requires BlockOutcome(u, txs, subsidy).Ok?
    ensures var a := BlockOutcome(u, txs, subsidy).value;
            && Total(a.utxo) == Total(u) + a.summary.minted - a.summary.fees
            && 0 <= a.summary.fees && 0 <= a.summary.minted <= subsidy + a.summary.fees
            && Total(a.utxo) <= Total(u) + subsidy
  {
    hide Regulars, Coinbase, Total;
    RegularsConserve(u, txs, |txs|);
    var a := Regulars(u, txs, |txs|).value;
    if txs != [] && txs[0].IsCoinbase() {
      CoinbaseMints(a.utxo, txs[0], subsidy + a.value);
    }
  }

  // ------------------------------------------------------------------
  // What an accepted spend satisfies

  /** Input `i` spends an output that is there, that no earlier input spends, and whose
      owner signed. */
  ghost predicate GoodInput(u: Utxo, tx: Transaction, i: nat) {
    && i < |tx.inputs| && tx.inputs[i].outpoint in u
    && Verify(u[tx.inputs[i].outpoint].owner, SigHash(tx), tx.inputs[i].signature)
    && forall j :: 0 <= j < i ==> tx.inputs[j].outpoint != tx.inputs[i].outpoint
  }

  /** The inputs pass exactly when each is good and their value fits a word. */
  lemma {:induction false} InputsPassIff(u: Utxo, tx: Transaction, n: nat)
    requires n <= |tx.inputs|
    ensures InputsError(u, tx, n).None? <==>
              && (forall i {:trigger GoodInput(u, tx, i)} :: 0 <= i < n ==> GoodInput(u, tx, i))
              && Spent(u, tx.inputs, n) <= U64_MAX
  {
    if n == 0 {
    } else {
      hide InputsError, GoodInput, Spent;
      InputsPassIff(u, tx, n - 1);
      SpentGrows(u, tx.inputs, n);
      LastInput(u, tx, n - 1);
    }
  }

  lemma LastInput(u: Utxo, tx: Transaction, k: nat)
    requires k < |tx.inputs|
    ensures InputsError(u, tx, k + 1).None? <==>
              InputsError(u, tx, k).None? && GoodInput(u, tx, k) && Spent(u, tx.inputs, k + 1) <= U64_MAX
  {
    hide Verify, SigHash, TxIdOf, Spent;
    var input := tx.inputs[k];
    assert SpentBefore(tx.inputs, k) <==> !(forall j :: 0 <= j < k ==> tx.inputs[j].outpoint != input.outpoint);
  }

  lemma SpentGrows(u: Utxo, inputs: seq<TxInput>, n: nat)
    requires 0 < n <= |inputs|
    ensures Spent(u, inputs, n - 1) <= Spent(u, inputs, n)
  {
  }

  /** The outputs pass exactly when none is zero and their value fits a word. */
  lemma {:induction false} OutputsPassIff(tx: Transaction, n: nat)
    requires n <= |tx.outputs|
    ensures OutputsError(tx, n).None? <==>
              (forall i :: 0 <= i < n ==> tx.outputs[i].value > 0) && Created(tx.outputs, n) <= U64_MAX
  {
    if n > 0 {
      OutputsPassIff(tx, n - 1);
      assert Created(tx.outputs, n - 1) <= Created(tx.outputs, n);
    }
  }

  /** Outputs can all be added exactly when none of their outpoints is taken and their
      indices do not wrap around in 32 bits. */
  lemma {:induction false} OutputsFreshIff(u: Utxo, txid: TxId, outputs: seq<TxOutput>, n: nat)
    requires n <= |outputs|
    ensures WithOutputs(u, txid, outputs, n).Ok? <==>
              n <= TWO_32 && forall i {:trigger OutPointAt(txid, i)} :: 0 <= i < n ==> OutPointAt(txid, i) !in u
    ensures WithOutputs(u, txid, outputs, n).Ok? ==>
              var v := WithOutputs(u, txid, outputs, n).value;
              && (forall o :: o in v <==> o in u || (o.tx == txid && o.index < n))
              && (forall o :: o in v ==> v[o] == if o in u then u[o] else outputs[o.index])
  {
    if n > 0 {
      OutputsFreshIff(u, txid, outputs, n - 1);
      var o := OutPointAt(txid, n - 1);
      assert n <= TWO_32 ==> o == OutPoint(txid, n - 1);
      if n == TWO_32 + 1 {
        assert OutPointAt(txid, n - 1) == OutPointAt(txid, 0);
      }
    }
  }

  /** Everything a spend must satisfy. */
  ghost predicate GoodSpend(u: Utxo, tx: Transaction) {
    var ins, outs := |tx.inputs|, |tx.outputs|;
    && ins > 0 && 0 < outs <= TWO_32
    && (forall i {:trigger GoodInput(u, tx, i)} :: 0 <= i < ins ==> GoodInput(u, tx, i))
    && (forall i {:trigger tx.outputs[i]} :: 0 <= i < outs ==> tx.outputs[i].value > 0)
    && Created(tx.outputs, outs) <= Spent(u, tx.inputs, ins) <= U64_MAX
    && (forall i {:trigger OutPointAt(TxIdOf(tx), i)} :: 0 <= i < outs ==>
          OutPointAt(TxIdOf(tx), i) !in WithoutInputs(u, tx.inputs, ins))
  }

  /** A transaction is applied exactly when it satisfies every rule. */
  lemma RegularIff(u: Utxo, tx: Transaction)
    requires tx.inputs != []
    ensures Regular(u, tx).Ok? <==> GoodSpend(u, tx)
  {
    var ins, outs, txid := |tx.inputs|, |tx.outputs|, TxIdOf(tx);
    InputsPassIff(u, tx, ins);
    OutputsPassIff(tx, outs);
    OutputsFreshIff(WithoutInputs(u, tx.inputs, ins), txid, tx.outputs, outs);
    hide InputsError, OutputsError, WithOutputs, Spent, Created, WithoutInputs, TxIdOf, GoodInput, OutPointAt;
    assert (forall i {:trigger tx.outputs[i]} :: 0 <= i < outs ==> tx.outputs[i].value > 0) <==>
           (forall i :: 0 <= i < outs ==> tx.outputs[i].value > 0);
  }

  lemma OutputsAddedAt(u: Utxo, txid: TxId, outputs: seq<TxOutput>, o: OutPoint)
    requires WithOutputs(u, txid, outputs, |outputs|).Ok?
    ensures var v, created := WithOutputs(u, txid, outputs, |outputs|).value, o.tx == txid && o.index < |outputs|;
            (o in v <==> created || o in u) && (o in v ==> v[o] == if created then outputs[o.index] else u[o])
  {
    hide WithOutputs;
    OutputsFreshIff(u, txid, outputs, |outputs|);
    if o.tx == txid && o.index < |outputs| {
      assert OutPointAt(txid, o.index) == o;
    }
  }

  lemma InputsRemovedAt(u: Utxo, inputs: seq<TxInput>, o: OutPoint)
    ensures var w := WithoutInputs(u, inputs, |inputs|);
            && (o in w <==> o in u && forall j :: 0 <= j < |inputs| ==> inputs[j].outpoint != o)
            && (o in w ==> w[o] == u[o])
  {
    hide WithoutInputs;
    WithoutInputsKeys(u, inputs, |inputs|);
  }

  lemma RegularUtxo(u: Utxo, tx: Transaction)
    requires Regular(u, tx).Ok?
    ensures var r := WithOutputs(WithoutInputs(u, tx.inputs, |tx.inputs|), TxIdOf(tx), tx.outputs, |tx.outputs|);
            r.Ok? && Regular(u, tx).value.utxo == r.value
  {
    hide InputsError, OutputsError, WithOutputs, Spent, Created, WithoutInputs, TxIdOf;
  }

  /** Applying a transaction removes the outputs it spends, adds the ones it creates, and
      changes nothing else. */
  lemma RegularChanges(u: Utxo, tx: Transaction, o: OutPoint)
    requires Regular(u, tx).Ok?
    ensures var v, created := Regular(u, tx).value.utxo, o.tx == TxIdOf(tx) && o.index < |tx.outputs|;
            && (o in v <==> created || (o in u && forall j :: 0 <= j < |tx.inputs| ==> tx.inputs[j].outpoint != o))
            && (o in v ==> v[o] == if created then tx.outputs[o.index] else u[o])
  {
    hide *;
    RegularUtxo(u, tx);
    OutputsAddedAt(WithoutInputs(u, tx.inputs, |tx.inputs|), TxIdOf(tx), tx.outputs, o);
    InputsRemovedAt(u, tx.inputs, o);
  }

  // ------------------------------------------------------------------
  // A whole block, one transaction at a time

  /** Transaction `i` takes the set from `sets[i]` to `sets[i + 1]` and the fees from `fees[i]` to
      `fees[i + 1]`; a coinbase may only be the first, and waits. */
  ghost predicate Walked(txs: seq<Transaction>, sets: seq<Utxo>, fees: seq<int>, i: nat) {
    && i < |txs| && |sets| == |txs| + 1 && |fees| == |txs| + 1
    && if txs[i].inputs == [] then i == 0 && sets[1] == sets[0] && fees[1] == fees[0]
       else Regular(sets[i], txs[i]) == Ok(Applied(sets[i + 1], fees[i + 1] - fees[i]))
  }

  ghost predicate Trail(u: Utxo, txs: seq<Transaction>, sets: seq<Utxo>, fees: seq<int>) {
    && |sets| == |txs| + 1 && |fees| == |txs| + 1 && sets[0] == u && fees[0] == 0
    && forall i: nat {:trigger Walked(txs, sets, fees, i)} :: i < |txs| ==> Walked(txs, sets, fees, i)
  }

  /** What a leading coinbase must be like: outputs worth something, no more in all than the subsidy
      and the fees, under outpoints that are free. */
  ghost predicate Mintable(w: Utxo, cb: Transaction, allowed: int) {
    && |cb.outputs| <= TWO_32 && Created(cb.outputs, |cb.outputs|) <= allowed
    && (forall i {:trigger cb.outputs[i]} :: 0 <= i < |cb.outputs| ==> cb.outputs[i].value > 0)
    && forall i: nat :: i < |cb.outputs| ==> OutPoint(TxIdOf(cb), i % TWO_32) !in w
  }

  /** `v` is `w` with the outputs of `tx` added under its own name, and nothing else. */
  ghost predicate Grown(v: Utxo, w: Utxo, tx: Transaction) {
    && (forall o: OutPoint :: o in v <==> (o.tx == TxIdOf(tx) && o.index < |tx.outputs|) || o in w)
    && (forall o: OutPoint :: o in v ==>
          v[o] == if o.tx == TxIdOf(tx) && o.index < |tx.outputs| then tx.outputs[o.index]
                  else if o in w then w[o] else v[o])
  }

  lemma CoinbaseIff(w: Utxo, cb: Transaction, allowed: int)
    requires allowed <= U64_MAX
    ensures Coinbase(w, cb, allowed).Ok? <==> Mintable(w, cb, allowed)
    ensures Coinbase(w, cb, allowed).Ok? ==>
              var v := Coinbase(w, cb, allowed).value;
              v.value == Created(cb.outputs, |cb.outputs|) && Grown(v.utxo, w, cb)
  {
    OutputsPassIff(cb, |cb.outputs|);
    OutputsFreshIff(w, TxIdOf(cb), cb.outputs, |cb.outputs|);
    hide OutputsError, WithOutputs, Created, TxIdOf;
    assert forall i: nat :: OutPointAt(TxIdOf(cb), i) == OutPoint(TxIdOf(cb), i % TWO_32);
    hide OutPointAt;
    if Coinbase(w, cb, allowed).Ok? {
      CoinbaseGrows(w, cb, allowed);
    }
  }

  lemma CoinbaseGrows(w: Utxo, cb: Transaction, allowed: int)
    requires Coinbase(w, cb, allowed).Ok?
    ensures Grown(Coinbase(w, cb, allowed).value.utxo, w, cb)
  {
    hide OutputsError, WithOutputs, Created, TxIdOf;
    var v := Coinbase(w, cb, allowed).value.utxo;
    forall o: OutPoint
      ensures o in v <==> (o.tx == TxIdOf(cb) && o.index < |cb.outputs|) || o in w
      ensures o in v ==>
                v[o] == if o.tx == TxIdOf(cb) && o.index < |cb.outputs| then cb.outputs[o.index]
                        else if o in w then w[o] else v[o]
    {
      OutputsAddedAt(w, TxIdOf(cb), cb.outputs, o);
    }
  }

  lemma {:induction false} RegularsTrail(u: Utxo, txs: seq<Transaction>, n: nat)
    returns (sets: seq<Utxo>, fees: seq<int>)
    requires n <= |txs| && Regulars(u, txs, n).Ok?
    ensures Trail(u, txs[..n], sets, fees) && Regulars(u, txs, n).value == Applied(sets[n], fees[n])
  {
    hide Regular;
    if n == 0 {
      sets, fees := [u], [0];
    } else {
      var sets0, fees0 := RegularsTrail(u, txs, n - 1);
      var a := Regulars(u, txs, n).value;
      sets, fees := sets0 + [a.utxo], fees0 + [a.value];
      forall i: nat | i < n ensures Walked(txs[..n], sets, fees, i) {
        if i < n - 1 {
          assert Walked(txs[..n - 1], sets0, fees0, i);
        }
      }
    }
  }

  lemma {:induction false} TrailRegulars(u: Utxo, txs: seq<Transaction>, sets: seq<Utxo>, fees: seq<int>, n: nat)
    requires n <= |txs| && Trail(u, txs, sets, fees) && fees[|txs|] <= U64_MAX
    ensures Regulars(u, txs, n) == Ok(Applied(sets[n], fees[n]))
    decreases n
  {
    hide Regular;
    if n > 0 {
      TrailRegulars(u, txs, sets, fees, n - 1);
      assert Walked(txs, sets, fees, n - 1);
      FeesRise(u, txs, sets, fees, n);
    }
  }

  lemma {:induction false} FeesRise(u: Utxo, txs: seq<Transaction>, sets: seq<Utxo>, fees: seq<int>, n: nat)
    requires n <= |txs| && Trail(u, txs, sets, fees)
    ensures fees[n] <= fees[|txs|]
    decreases |txs| - n
  {
    hide Regular;
    if n < |txs| {
      FeesRise(u, txs, sets, fees, n + 1);
      assert Walked(txs, sets, fees, n);
      if txs[n].inputs != [] {
        RegularConserves(sets[n], txs[n]);
      }
    }
  }

  /** A block applies exactly if its transactions can be taken one after another, each spend valid on
      the set the ones before it leave, with a coinbase only in front; the fees and the subsidy fit
      a word; and a coinbase claims, last of all, no more than these. The set it leads to is that
      of the last step, and the coinbase's outputs. */
  lemma BlockIff(u: Utxo, txs: seq<Transaction>, subsidy: u64, sets: seq<Utxo>, fees: seq<int>)
    requires Trail(u, txs, sets, fees)
    ensures var n, outcome := |txs|, BlockOutcome(u, txs, subsidy);
            var led := txs != [] && txs[0].inputs == [];
            && (outcome.Ok? <==>
                  && subsidy + fees[n] <= U64_MAX && (led ==> Mintable(sets[n], txs[0], subsidy + fees[n])))
            && (outcome.Ok? ==>
                  && outcome.value.summary.fees == fees[n]
                  && (!led ==> outcome.value.utxo == sets[n] && outcome.value.summary.minted == 0)
                  && (led ==>
                        && outcome.value.summary.minted == Created(txs[0].outputs, |txs[0].outputs|)
                        && Grown(outcome.value.utxo, sets[n], txs[0])))
  {
    hide Regular, Regulars, Coinbase, Mintable, TxIdOf, Created, Grown;
    var n := |txs|;
    if fees[n] <= U64_MAX {
      TrailRegulars(u, txs, sets, fees, n);
      if subsidy + fees[n] <= U64_MAX && txs != [] && txs[0].inputs == [] {
        CoinbaseIff(sets[n], txs[0], subsidy + fees[n]);
      }
    } else {
      TrailTooRich(u, txs, sets, fees, n);
    }
  }

  /** And only then: a block that applies has such a trail. */
  lemma BlockHasTrail(u: Utxo, txs: seq<Transaction>, subsidy: u64) returns (sets: seq<Utxo>, fees: seq<int>)
    requires BlockOutcome(u, txs, subsidy).Ok?
    ensures Trail(u, txs, sets, fees)
  {
    hide Regular, Regulars, Coinbase;
    sets, fees := RegularsTrail(u, txs, |txs|);
    assert txs[..|txs|] == txs;
  }

  /** Fees beyond a word stop the block. */
  lemma TrailTooRich(u: Utxo, txs: seq<Transaction>, sets: seq<Utxo>, fees: seq<int>, n: nat)
    requires n == |txs| && Trail(u, txs, sets, fees) && fees[n] > U64_MAX
    ensures BlockOutcome(u, txs, 0).Err? && Regulars(u, txs, n).Err?
  {
    hide Regular;
    if Regulars(u, txs, n).Ok? {
      TrailReached(u, txs, sets, fees, n);
    }
  }

  lemma {:induction false} TrailReached(u: Utxo, txs: seq<Transaction>, sets: seq<Utxo>, fees: seq<int>, n: nat)
    requires n <= |txs| && Trail(u, txs, sets, fees) && Regulars(u, txs, n).Ok?
    ensures Regulars(u, txs, n).value == Applied(sets[n], fees[n]) && fees[n] <= U64_MAX
    decreases n
  {
    hide Regular;
    if n > 0 {
      TrailReached(u, txs, sets, fees, n - 1);
      assert Walked(txs, sets, fees, n - 1);
    }
  }
}
