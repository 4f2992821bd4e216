/** Assembling a block from pending transactions, and why it is always valid. */
module Production {
  import opened Types
  import opened Arithmetic
  import opened Graphs
  import opened Bytes
  import opened Blocks
  import opened Ghostdag
  import opened Consensus
  import opened ChainSelection
  import opened Order
  import opened Acceptance
  import opened Transactions
  import opened Utxos
  import opened Apply
  import opened States
  import opened Finality
  import opened Ledgers
  import Pow

  const HALVING_ERA: nat := 1000

  function Pow2(n: nat): (p: nat)
    ensures p > 0
  {
    if n == 0 then 1 else 2 * Pow2(n - 1)
  }

  /** The amount minted at a height: the cap, shifted right once an era. */
  function IssuanceAt(cap: u64, height: nat): (r: u64)
    ensures r <= cap
  {
    DivAtMost(cap, Pow2(height / HALVING_ERA));
    if height / HALVING_ERA >= 63 then 0 else cap / Pow2(height / HALVING_ERA)
  }

  lemma {:induction false} Pow2Grows(m: nat, n: nat)
    requires m <= n
    ensures Pow2(m) <= Pow2(n)
    decreases n
  {
    if m < n {
      Pow2Grows(m, n - 1);
    }
  }

  /** Issuance never rises with height. */
  lemma IssuanceDecays(cap: u64, low: nat, high: nat)
    requires low <= high
    ensures IssuanceAt(cap, high) <= IssuanceAt(cap, low)
  {
    var a, b := low / HALVING_ERA, high / HALVING_ERA;
    assert a <= b;
    if b < 63 {
      Pow2Grows(a, b);
      DivBounds(cap, Pow2(b));
      MulLe(Pow2(a), Pow2(b), cap / Pow2(b));
      DivAtLeast(cap, Pow2(a), cap / Pow2(b));
    }
  }

  /** The whole schedule: the cap for the first thousand blocks, half of it for the next thousand, and
      so on, rounding down, until nothing is minted after 63 eras. */
  lemma IssuanceHalves(cap: u64, height: nat)
    ensures height < 1000 ==> IssuanceAt(cap, height) == cap
    ensures height + 1000 < 63000 ==> IssuanceAt(cap, height + 1000) == IssuanceAt(cap, height) / 2
    ensures height >= 63000 ==> IssuanceAt(cap, height) == 0
  {
    var era := height / HALVING_ERA;
    assert (height + 1000) / HALVING_ERA == era + 1;
    if height < 1000 {
      assert Pow2(era) == 1;
    }
    HalvesAgain(cap, Pow2(era));
  }

  /** The coinbase of a produced block: its tag is only the timestamp. */
  function IssuanceTxs(miner: Option<Address>, issuance: u64, timestamp: u64, fees: nat): seq<Transaction> {
    var total := SatAdd(issuance, fees, U64_MAX);
    if miner.None? || total == 0 then []
    else [Transaction([], [TxOutput(total, miner.value)], ToLe(timestamp, 8))]
  }

  /** The fee a transaction appears to pay when looked up in `u`: an input that is not
      there counts nothing. */
  function FeeIn(u: Utxo, tx: Transaction): nat {
    var spent, created := Spent(u, tx.inputs, |tx.inputs|), Created(tx.outputs, |tx.outputs|);
    SpentNonNegative(u, tx.inputs, |tx.inputs|);
    CreatedNonNegative(tx.outputs, |tx.outputs|);
    SatSub(Min(spent, U64_MAX), created)
  }

  lemma {:induction false} SpentNonNegative(u: Utxo, inputs: seq<TxInput>, n: nat)
    requires n <= |inputs|
    ensures Spent(u, inputs, n) >= 0
  {
    if n > 0 {
      SpentNonNegative(u, inputs, n - 1);
    }
  }

  function FeesIn(u: Utxo, txs: seq<Transaction>): nat {
    if txs == [] then 0 else FeesIn(u, txs[..|txs| - 1]) + FeeIn(u, txs[|txs| - 1])
  }

  datatype Picks = Picks(selected: seq<Transaction>, after: Utxo)

  /** The candidates that apply one after another, and the set they lead to. */
  function Picked(u: Utxo, cands: seq<Transaction>, subsidy: u64): Picks {
    if cands == [] then Picks([], u)
    else
      var p, tx := Picked(u, cands[..|cands| - 1], subsidy), cands[|cands| - 1];
      match BlockOutcome(p.after, [tx], subsidy)
      case Err(_) => p
      case Ok(a) => Picks(p.selected + [tx], a.utxo)
  }

  /** The running total of fees, saturating at a word. */
  method FeeOf(state: UtxoSet, tx: Transaction) returns (fee: nat)
    ensures fee == FeeIn(state.entries, tx)
    // What the inputs found there are worth, at most a word, less what the outputs are worth.
    ensures var spent, created := Spent(state.entries, tx.inputs, |tx.inputs|), Created(tx.outputs, |tx.outputs|);
            var held := if spent > U64_MAX then U64_MAX else spent;
            fee == if held < created then 0 else held - created
  {
    var sumIn: nat := 0;
    for i := 0 to |tx.inputs|
      invariant sumIn == Min(Spent(state.entries, tx.inputs, i), U64_MAX)
    {
      SpentNonNegative(state.entries, tx.inputs, i);
      var prev := state.Get(tx.inputs[i].outpoint);
      if prev.Some? {
        sumIn := SatAdd(sumIn, prev.value.value, U64_MAX);
      }
    }
    var sumOut: nat := 0;
    for i := 0 to |tx.outputs|
      invariant sumOut == Created(tx.outputs, i)
    {
      sumOut := sumOut + tx.outputs[i].value;
    }
    fee := SatSub(sumIn, sumOut);
  }

  // ------------------------------------------------------------------
  // Picked transactions form the regular part of a block

  /** A pending transaction applied as a block of its own. */
  lemma AloneIsRegular(u: Utxo, tx: Transaction, subsidy: u64)
    requires !tx.IsCoinbase() && BlockOutcome(u, [tx], subsidy).Ok?
    ensures Regular(u, tx).Ok? && BlockOutcome(u, [tx], subsidy).value.utxo == Regular(u, tx).value.utxo
  {
    hide Regular, Coinbase;
    assert Regulars(u, [tx], 1).Ok?;
    assert Regulars(u, [tx], 0) == Ok(Applied(u, 0));
    assert [tx][0] == tx;
  }

  lemma {:induction false} RegularsFront(u: Utxo, s: seq<Transaction>, t: seq<Transaction>, n: nat)
    requires n <= |s|
    ensures Regulars(u, s + t, n) == Regulars(u, s, n)
  {
    hide Regular;
    if n > 0 {
      RegularsFront(u, s, t, n - 1);
    }
  }

  lemma RegularsSnoc(u: Utxo, s: seq<Transaction>, tx: Transaction)
    requires Regulars(u, s, |s|).Ok? && !tx.IsCoinbase()
    ensures var a := Regulars(u, s, |s|).value;
            Regulars(u, s + [tx], |s| + 1) ==
            match Regular(a.utxo, tx)
            case Err(e) => Err(e)
            case Ok(b) =>
              if a.value + b.value > U64_MAX then Err(ValueOverflow) else Ok(Applied(b.utxo, a.value + b.value))
  {
    hide Regular;
    RegularsFront(u, s, [tx], |s|);
  }

  /** A leading coinbase is set aside. */
  lemma {:induction false} RegularsBehind(u: Utxo, cb: Transaction, s: seq<Transaction>, n: nat)
    requires cb.IsCoinbase() && n <= |s| && forall tx :: tx in s ==> !tx.IsCoinbase()
    ensures Regulars(u, [cb] + s, n + 1) == Regulars(u, s, n)
  {
    hide Regular;
    if n > 0 {
      RegularsBehind(u, cb, s, n - 1);
      assert ([cb] + s)[n] == s[n - 1] && s[n - 1] in s;
    } else {
      assert Regulars(u, [cb] + s, 0) == Ok(Applied(u, 0));
    }
  }

  ghost predicate Spends(cands: seq<Transaction>) {
    forall tx :: tx in cands ==> !tx.IsCoinbase()
  }

  /** The picked transactions, in order, are a valid run of regular transactions that leads
      to the working set and collects what the set has lost. */
  lemma {:induction false} PickedApply(u: Utxo, cands: seq<Transaction>, subsidy: u64)
    requires Spends(cands) && Total(u) <= U64_MAX
    ensures var p := Picked(u, cands, subsidy);
            && Spends(p.selected)
            && Regulars(u, p.selected, |p.selected|) == Ok(Applied(p.after, Total(u) - Total(p.after)))
            && 0 <= Total(p.after) <= Total(u)
  {
    hide Regular, BlockOutcome, Total, Regulars;
    if cands == [] {
      NoRegulars(u);
      TotalNonNegative(u);
    } else {
      var init, tx := cands[..|cands| - 1], cands[|cands| - 1];
      assert forall x :: x in init ==> x in cands;
      assert tx in cands;
      PickedApply(u, init, subsidy);
      var p := Picked(u, init, subsidy);
      if BlockOutcome(p.after, [tx], subsidy).Ok? {
        AloneIsRegular(p.after, tx, subsidy);
        RegularConserves(p.after, tx);
        TotalNonNegative(Regular(p.after, tx).value.utxo);
        RegularsSnoc(u, p.selected, tx);
      }
    }
  }

  /** What becomes of candidate `i`: of the first `i` the first `count[i]` selected ones have been
      taken, and lead to the set `sets[i]`; the candidate is the next one selected if it applies
      there as a block of its own, and is left out if it does not. */
  ghost predicate Judged(cands: seq<Transaction>, subsidy: u64, selected: seq<Transaction>, count: seq<nat>,
                         sets: seq<Utxo>, i: nat) {
    && i < |cands| && |count| == |cands| + 1 && |sets| == |cands| + 1
    && match BlockOutcome(sets[i], [cands[i]], subsidy)
       case Err(_) => count[i + 1] == count[i] && sets[i + 1] == sets[i]
       case Ok(a) =>
         && count[i] < |selected| && selected[count[i]] == cands[i]
         && count[i + 1] == count[i] + 1 && sets[i + 1] == a.utxo
  }

  /** The selected transactions are exactly the candidates that apply when their turn comes, in order,
      and lead from `u` to `after`. */
  ghost predicate Greedy(u: Utxo, cands: seq<Transaction>, subsidy: u64, selected: seq<Transaction>, after: Utxo,
                         count: seq<nat>, sets: seq<Utxo>) {
    && |count| == |cands| + 1 && |sets| == |cands| + 1
    && count[0] == 0 && sets[0] == u && count[|cands|] == |selected| && sets[|cands|] == after
    && forall i: nat {:trigger Judged(cands, subsidy, selected, count, sets, i)} ::
         i < |cands| ==> Judged(cands, subsidy, selected, count, sets, i)
  }

  lemma JudgedStill(cands: seq<Transaction>, tx: Transaction, subsidy: u64, selected: seq<Transaction>,
                    more: seq<Transaction>, count: seq<nat>, n: nat, sets: seq<Utxo>, w: Utxo, i: nat)
    requires Judged(cands, subsidy, selected, count, sets, i)
    ensures Judged(cands + [tx], subsidy, selected + more, count + [n], sets + [w], i)
  {
    hide BlockOutcome;
    assert (cands + [tx])[i] == cands[i] && (count + [n])[i] == count[i] && (count + [n])[i + 1] == count[i + 1];
    assert (sets + [w])[i] == sets[i] && (sets + [w])[i + 1] == sets[i + 1];
  }

  /** No candidate that applies when its turn comes is left out. */
  lemma {:induction false} PickedIsGreedy(u: Utxo, cands: seq<Transaction>, subsidy: u64)
    returns (count: seq<nat>, sets: seq<Utxo>)
    ensures var p := Picked(u, cands, subsidy);
            Greedy(u, cands, subsidy, p.selected, p.after, count, sets)
  {
    hide BlockOutcome;
    if cands == [] {
      count, sets := [0], [u];
    } else {
      var init, tx := cands[..|cands| - 1], cands[|cands| - 1];
      assert cands == init + [tx];
      var p, q := Picked(u, init, subsidy), Picked(u, cands, subsidy);
      var count0, sets0 := PickedIsGreedy(u, init, subsidy);
      count, sets := count0 + [|q.selected|], sets0 + [q.after];
      forall i: nat | i < |init| ensures Judged(cands, subsidy, q.selected, count, sets, i) {
        assert Judged(init, subsidy, p.selected, count0, sets0, i);
        if BlockOutcome(p.after, [tx], subsidy).Ok? {
          JudgedStill(init, tx, subsidy, p.selected, [tx], count0, |q.selected|, sets0, q.after, i);
        } else {
          assert p.selected + [] == p.selected;
          JudgedStill(init, tx, subsidy, p.selected, [], count0, |q.selected|, sets0, q.after, i);
        }
      }
      assert Judged(cands, subsidy, q.selected, count, sets, |init|);
    }
  }

  /** Selecting from pending transactions: at its turn each one is the next selected, unless it does
      not apply on the transactions selected before it, which are a valid run on the state. */
  lemma SelectionIsComplete(u: Utxo, cands: seq<Transaction>, subsidy: u64, count: seq<nat>, sets: seq<Utxo>,
                            selected: seq<Transaction>, after: Utxo, i: nat)
    requires Spends(cands) && Total(u) <= U64_MAX && i <= |cands|
    requires Greedy(u, cands, subsidy, selected, after, count, sets)
    ensures count[i] <= |selected| && Regulars(u, selected[..count[i]], count[i]).Ok?
    ensures i < |cands| ==>
              var w := Regulars(u, selected[..count[i]], count[i]).value.utxo;
              || (count[i] < |selected| && selected[count[i]] == cands[i] && count[i + 1] == count[i] + 1)
              || (BlockOutcome(w, [cands[i]], subsidy).Err? && count[i + 1] == count[i])
  {
    hide Regular, Regulars, BlockOutcome, Total;
    SelectedRun(u, cands, subsidy, count, sets, selected, after, i);
    if i < |cands| {
      assert Judged(cands, subsidy, selected, count, sets, i);
    }
  }

  /** The transactions selected among the first `i` candidates are a valid run. */
  lemma {:induction false} SelectedRun(u: Utxo, cands: seq<Transaction>, subsidy: u64, count: seq<nat>,
                                       sets: seq<Utxo>, selected: seq<Transaction>, after: Utxo, i: nat)
    requires Spends(cands) && Total(u) <= U64_MAX && i <= |cands|
    requires Greedy(u, cands, subsidy, selected, after, count, sets)
    ensures count[i] <= |selected| && Spends(selected[..count[i]]) && 0 <= Total(sets[i]) <= Total(u)
    ensures Regulars(u, selected[..count[i]], count[i]) == Ok(Applied(sets[i], Total(u) - Total(sets[i])))
    decreases i
  {
    hide Regular, Regulars, BlockOutcome, Total;
    if i == 0 {
      NoRegulars(u);
      TotalNonNegative(u);
      assert selected[..0] == [];
    } else {
      SelectedRun(u, cands, subsidy, count, sets, selected, after, i - 1);
      assert Judged(cands, subsidy, selected, count, sets, i - 1);
      var n, tx, w := count[i - 1], cands[i - 1], sets[i - 1];
      assert tx in cands;
      if BlockOutcome(w, [tx], subsidy).Ok? {
        assert selected[..n + 1] == selected[..n] + [tx];
        AloneIsRegular(w, tx, subsidy);
        RegularConserves(w, tx);
        TotalNonNegative(Regular(w, tx).value.utxo);
        RegularsSnoc(u, selected[..n], tx);
      }
    }
  }

  lemma NoRegulars(u: Utxo)
    ensures Regulars(u, [], 0) == Ok(Applied(u, 0))
  {
  }

  // ------------------------------------------------------------------
  // The fees claimed are no more than the fees paid

  /** An outpoint of the state that names a pending transaction is that transaction's
      output: what a collision-free digest gives. */
  ghost predicate NamesAgree(u: Utxo, cands: seq<Transaction>) {
    forall tx, o {:trigger tx in cands, o in u} ::
      tx in cands && o in u && o.tx == TxIdOf(tx) && o.index < |tx.outputs| ==> u[o] == tx.outputs[o.index]
  }

  /** Outputs of the original state that survive keep their value. */
  ghost predicate Unaltered(u: Utxo, w: Utxo) {
    forall o {:trigger o in w} :: o in u && o in w ==> w[o] == u[o]
  }

  lemma UnalteredStep(u: Utxo, w: Utxo, tx: Transaction, cands: seq<Transaction>)
    requires Unaltered(u, w) && Regular(w, tx).Ok? && tx in cands && NamesAgree(u, cands)
    ensures Unaltered(u, Regular(w, tx).value.utxo)
  {
    hide Regular, TxIdOf;
    var w' := Regular(w, tx).value.utxo;
    forall o | o in u && o in w' ensures w'[o] == u[o] {
      RegularChanges(w, tx, o);
    }
  }

  lemma {:induction false} SpentLess(u: Utxo, w: Utxo, tx: Transaction, n: nat)
    requires Unaltered(u, w) && n <= |tx.inputs| && forall i :: 0 <= i < n ==> tx.inputs[i].outpoint in w
    ensures Spent(u, tx.inputs, n) <= Spent(w, tx.inputs, n)
  {
    if n > 0 {
      SpentLess(u, w, tx, n - 1);
    }
  }

  /** Looked up in the original state, a transaction seems to pay at most its real fee. */
  lemma FeeUnderstated(u: Utxo, w: Utxo, tx: Transaction)
    requires Unaltered(u, w) && Regular(w, tx).Ok? && !tx.IsCoinbase()
    ensures FeeIn(u, tx) <= Regular(w, tx).value.value
  {
    RegularIff(w, tx);
    RegularFee(w, tx);
    hide Regular, Spent, Created;
    forall i | 0 <= i < |tx.inputs| ensures tx.inputs[i].outpoint in w {
      assert GoodInput(w, tx, i);
    }
    SpentLess(u, w, tx, |tx.inputs|);
  }

  lemma RegularFee(w: Utxo, tx: Transaction)
    requires Regular(w, tx).Ok?
    ensures Regular(w, tx).value.value == Spent(w, tx.inputs, |tx.inputs|) - Created(tx.outputs, |tx.outputs|)
  {
    hide InputsError, OutputsError, WithOutputs, Spent, Created, WithoutInputs, TxIdOf;
  }

  lemma {:induction false} FeesUnderstated(u: Utxo, cands: seq<Transaction>, all: seq<Transaction>, subsidy: u64)
    requires Spends(cands) && NamesAgree(u, all) && (forall tx :: tx in cands ==> tx in all)
    ensures var p := Picked(u, cands, subsidy);
            Unaltered(u, p.after) && FeesIn(u, p.selected) <= Total(u) - Total(p.after)
  {
    hide Regular, BlockOutcome, Total, NamesAgree, FeeIn;
    if cands == [] {
    } else {
      var init, tx := cands[..|cands| - 1], cands[|cands| - 1];
      assert forall x :: x in init ==> x in cands;
      assert tx in cands;
      FeesUnderstated(u, init, all, subsidy);
      var p := Picked(u, init, subsidy);
      if BlockOutcome(p.after, [tx], subsidy).Ok? {
        AloneIsRegular(p.after, tx, subsidy);
        RegularConserves(p.after, tx);
        UnalteredStep(u, p.after, tx, all);
        FeeUnderstated(u, p.after, tx);
        assert (p.selected + [tx])[..|p.selected|] == p.selected;
      }
    }
  }

  lemma {:induction false} SpentSame(u: Utxo, w: Utxo, tx: Transaction, n: nat)
    requires Unaltered(u, w) && n <= |tx.inputs|
    requires forall i :: 0 <= i < n ==> tx.inputs[i].outpoint in w && tx.inputs[i].outpoint in u
    ensures Spent(u, tx.inputs, n) == Spent(w, tx.inputs, n)
  {
    if n > 0 {
      SpentSame(u, w, tx, n - 1);
    }
  }

  /** All inputs of the transaction are outputs of the state itself, not of other candidates. */
  ghost predicate Rooted(u: Utxo, tx: Transaction) {
    forall i {:trigger tx.inputs[i]} :: 0 <= i < |tx.inputs| ==> tx.inputs[i].outpoint in u
  }

  lemma FeeExact(u: Utxo, w: Utxo, tx: Transaction)
    requires Unaltered(u, w) && Regular(w, tx).Ok? && Rooted(u, tx)
    ensures FeeIn(u, tx) == Regular(w, tx).value.value
  {
    RegularIff(w, tx);
    RegularFee(w, tx);
    hide Regular, Spent, Created;
    forall i | 0 <= i < |tx.inputs| ensures tx.inputs[i].outpoint in w {
      assert GoodInput(w, tx, i);
    }
    SpentSame(u, w, tx, |tx.inputs|);
  }

  /** The fees looked up in the original state are all the fees paid, unless a selected transaction
      spends what another candidate creates. */
  lemma {:induction false} FeesExact(u: Utxo, cands: seq<Transaction>, all: seq<Transaction>, subsidy: u64)
    requires Spends(cands) && NamesAgree(u, all) && (forall tx :: tx in cands ==> tx in all)
    requires forall tx :: tx in Picked(u, cands, subsidy).selected ==> Rooted(u, tx)
    ensures FeesIn(u, Picked(u, cands, subsidy).selected) == Total(u) - Total(Picked(u, cands, subsidy).after)
  {
    hide Regular, BlockOutcome, Total, NamesAgree, FeeIn, Rooted;
    if cands == [] {
    } else {
      var init, tx := cands[..|cands| - 1], cands[|cands| - 1];
      assert forall x :: x in init ==> x in cands;
      assert tx in cands;
      var p := Picked(u, init, subsidy);
      assert forall x :: x in p.selected ==> x in Picked(u, cands, subsidy).selected;
      FeesExact(u, init, all, subsidy);
      FeesUnderstated(u, init, all, subsidy);
      if BlockOutcome(p.after, [tx], subsidy).Ok? {
        AloneIsRegular(p.after, tx, subsidy);
        RegularConserves(p.after, tx);
        assert tx in Picked(u, cands, subsidy).selected;
        FeeExact(u, p.after, tx);
        assert (p.selected + [tx])[..|p.selected|] == p.selected;
      }
    }
  }

  // ------------------------------------------------------------------
  // The assembled block is valid

  lemma CoinbaseValid(w: Utxo, miner: Address, total: u64, timestamp: u64, allowed: int)
    requires 0 < total <= allowed
    ensures var cb := Transaction([], [TxOutput(total, miner)], ToLe(timestamp, 8));
            Coinbase(w, cb, allowed).Ok? <==> OutPoint(TxIdOf(cb), 0) !in w
    ensures var cb := Transaction([], [TxOutput(total, miner)], ToLe(timestamp, 8)); var o := OutPoint(TxIdOf(cb), 0);
            o in w ==> Coinbase(w, cb, allowed) == Err(OutputAlreadyExists(o))
  {
    var cb := Transaction([], [TxOutput(total, miner)], ToLe(timestamp, 8));
    hide TxIdOf, ToLe;
    assert Created(cb.outputs, 0) == 0;
    assert Created(cb.outputs, 1) == total;
    assert OutputsError(cb, 0) == None;
    assert OutputsError(cb, 1) == None;
    assert OutPointAt(TxIdOf(cb), 0) == OutPoint(TxIdOf(cb), 0);
    assert WithOutputs(w, TxIdOf(cb), cb.outputs, 0) == Ok(w);
    assert WithOutputs(w, TxIdOf(cb), cb.outputs, 1).Ok? <==> OutPoint(TxIdOf(cb), 0) !in w;
  }

  /** The coinbase's outpoint is not already taken. */
  ghost predicate FreshCoinbase(w: Utxo, coinbase: seq<Transaction>) {
    coinbase != [] ==> OutPoint(TxIdOf(coinbase[0]), 0) !in w
  }

  /** The picked transactions behind the issuance coinbase apply to the state they were picked on,
      exactly if the coinbase's outpoint is not already taken: the coinbase claims no more than
      the issuance and the fees really paid. */
  lemma AssembledApplies(u: Utxo, cands: seq<Transaction>, subsidy: u64, miner: Option<Address>, issuance: u64,
                         timestamp: u64)
    requires Spends(cands) && NamesAgree(u, cands) && Total(u) + subsidy <= U64_MAX && issuance <= subsidy
    ensures var p := Picked(u, cands, subsidy);
            var coinbase := IssuanceTxs(miner, issuance, timestamp, FeesIn(u, p.selected));
            && (BlockOutcome(u, coinbase + p.selected, subsidy).Ok? <==> FreshCoinbase(p.after, coinbase))
            && (!FreshCoinbase(p.after, coinbase) ==>
                  && coinbase != []
                  && BlockOutcome(u, coinbase + p.selected, subsidy) ==
                     Err(OutputAlreadyExists(OutPoint(TxIdOf(coinbase[0]), 0))))
  {
    hide Regular, Regulars, Coinbase, Total, Picked, FeesIn, NamesAgree, ToLe, TxIdOf, IssuanceTxs, BlockOutcome,
         FreshCoinbase, Spends, SatAdd;
    var p := Picked(u, cands, subsidy);
    var fees, paid := FeesIn(u, p.selected), Total(u) - Total(p.after);
    PickedApply(u, cands, subsidy);
    EveryoneListed(cands);
    FeesUnderstated(u, cands, cands, subsidy);
    var coinbase := IssuanceTxs(miner, issuance, timestamp, fees);
    IssuanceShape(miner, issuance, timestamp, fees);
    TaggedFresh(p.after, coinbase);
    if coinbase == [] {
      assert coinbase + p.selected == p.selected;
      NoCoinbase(u, p.selected, subsidy);
    } else {
      var cb := coinbase[0];
      SpendsMeans(p.selected);
      RegularsBehind(u, cb, p.selected, |p.selected|);
      CoinbaseValid(p.after, miner.value, SatAdd(issuance, fees, U64_MAX), timestamp, subsidy + paid);
      CoinbaseFirst(u, cb, p.selected, subsidy, p.after, paid);
      assert coinbase == [cb];
    }
  }

  lemma EveryoneListed(cands: seq<Transaction>)
    ensures forall tx :: tx in cands ==> tx in cands
  {
  }

  lemma SpendsMeans(s: seq<Transaction>)
    requires Spends(s)
    ensures forall tx :: tx in s ==> !tx.IsCoinbase()
  {
  }

  lemma TaggedFresh(w: Utxo, coinbase: seq<Transaction>)
    ensures FreshCoinbase(w, coinbase) <==> coinbase == [] || OutPoint(TxIdOf(coinbase[0]), 0) !in w
  {
    hide TxIdOf;
  }

  lemma IssuanceShape(miner: Option<Address>, issuance: u64, timestamp: u64, fees: nat)
    ensures var coinbase, total := IssuanceTxs(miner, issuance, timestamp, fees), SatAdd(issuance, fees, U64_MAX);
            && (coinbase == [] <==> miner.None? || total == 0)
            && (coinbase != [] ==> |coinbase| == 1 && coinbase[0].IsCoinbase()
                                   && coinbase[0] == Transaction([], [TxOutput(total, miner.value)],
                                                                 ToLe(timestamp, 8)))
            && 0 <= total <= issuance + fees && total <= U64_MAX
  {
    hide ToLe;
  }

  lemma CoinbaseFirst(u: Utxo, cb: Transaction, s: seq<Transaction>, subsidy: u64, w: Utxo, paid: int)
    requires cb.IsCoinbase() && Regulars(u, [cb] + s, |s| + 1) == Ok(Applied(w, paid)) && subsidy + paid <= U64_MAX
    ensures BlockOutcome(u, [cb] + s, subsidy).Ok? <==> Coinbase(w, cb, subsidy + paid).Ok?
    ensures Coinbase(w, cb, subsidy + paid).Err? ==>
              BlockOutcome(u, [cb] + s, subsidy) == Err(Coinbase(w, cb, subsidy + paid).error)
  {
    hide Regulars, Coinbase;
    assert ([cb] + s)[0] == cb && |[cb] + s| == |s| + 1;
  }

  lemma NoCoinbase(u: Utxo, s: seq<Transaction>, subsidy: u64)
    requires Spends(s) && Regulars(u, s, |s|).Ok? && subsidy + Regulars(u, s, |s|).value.value <= U64_MAX
    ensures BlockOutcome(u, s, subsidy).Ok?
  {
    hide Regulars;
    assert s != [] ==> s[0] in s;
  }

  // ------------------------------------------------------------------
  // A block on all tips sees the ledger state

  /** Blocks under no tip but the selected one, in order. */
  lemma TipsSeeEverything(k: nat, genesis: BlockId, nodes: Nodes, tips: set<BlockId>, ps: seq<BlockId>)
    requires Consistent(k, genesis, nodes, tips) && nodes != map[] && Elements(ps) == tips
    ensures ps != [] && Present(nodes, ps)
    ensures PastOf(GraphOf(nodes), ps) == nodes.Keys
    ensures HeaviestOf(nodes, ps) == HeaviestBlock(nodes)
  {
    hide *;
    TipsPresent(k, genesis, nodes, tips, ps);
    TipsCover(k, genesis, nodes, tips, ps);
    var sp := HeaviestOf(nodes, ps);
    TipIsHeaviest(k, genesis, nodes, tips, sp);
    HeaviestUnique(nodes, nodes.Keys, sp, HeaviestBlock(nodes));
  }

  lemma TipsPresent(k: nat, genesis: BlockId, nodes: Nodes, tips: set<BlockId>, ps: seq<BlockId>)
    requires Consistent(k, genesis, nodes, tips) && Elements(ps) == tips
    ensures ps != [] && Present(nodes, ps)
  {
    SoundGraph(k, genesis, nodes, tips);
    var t := TipAbove(k, genesis, nodes, tips, genesis);
    assert t in Elements(ps);
    forall p | p in ps ensures p in nodes {
      assert p in Elements(ps);
      assert IsTip(nodes, p);
    }
  }

  /** Every block lies at or below some tip. */
  lemma TipsCover(k: nat, genesis: BlockId, nodes: Nodes, tips: set<BlockId>, ps: seq<BlockId>)
    requires Consistent(k, genesis, nodes, tips) && Elements(ps) == tips
    ensures PastOf(GraphOf(nodes), ps) == nodes.Keys
  {
    var g := GraphOf(nodes);
    assert g.Keys == nodes.Keys;
    hide Consistent, GraphOf, PastEq;
    forall b | b in nodes ensures b in PastOf(g, ps) {
      var above := TipAbove(k, genesis, nodes, tips, b);
      assert above in Elements(ps);
      assert above in ps && b in PastEq(g, above);
    }
  }

  /** The state a block on all tips is checked against is the full ledger state. */
  lemma TipsPreState(k: nat, genesis: BlockId, nodes: Nodes, tips: set<BlockId>, ps: seq<BlockId>, subsidy: u64)
    requires Consistent(k, genesis, nodes, tips) && Lineages(nodes) && nodes != map[] && Elements(ps) == tips
    ensures PreState(nodes, ps, HeaviestBlock(nodes), subsidy)
            == RunOver(nodes, Linearization(nodes, HeaviestBlock(nodes)), subsidy).utxo
  {
    TipsSeeEverything(k, genesis, nodes, tips, ps);
    var tip, g := HeaviestBlock(nodes), GraphOf(nodes);
    var m := MergeOrder(nodes, ps, tip);
    hide Consistent, OrderOf, Past, PastEq, PastOf, GraphOf, IsHeaviest;
    assert MergeSet(g, ps, tip) == nodes.Keys - PastEq(g, tip);
    ListsUnique(nodes, nodes.Keys - PastEq(g, tip), m, TopoOrder(nodes, nodes.Keys - PastEq(g, tip)));
    FoldAppend(nodes, OrderOf(nodes, tip), m, map[], subsidy);
  }

  /** A block on all tips with a valid payload, a new digest, and the work, time and nonce the
      rules ask for is always inserted. */
  lemma TipsBlockInserted(k: nat, genesis: BlockId, nodes: Nodes, tips: set<BlockId>, rules: Rules, subsidy: u64,
                          depth: nat, stored: set<BlockId>, block: Block, txs: seq<Transaction>)
    requires Consistent(k, genesis, nodes, tips) && Lineages(nodes) && nodes != map[] && HeaviestBlock(nodes) in stored
    requires Elements(block.parents) == tips && Id(block) !in nodes
    requires BlockOutcome(RunOver(nodes, Linearization(nodes, HeaviestBlock(nodes)), subsidy).utxo, txs, subsidy).Ok?
    requires rules.validator.Some? ==> rules.validator.value(block).None?
    requires rules.difficulty.Some? ==>
               && block.work == RequiredWork(nodes, rules.difficulty.value, HeaviestBlock(nodes))
               && forall p :: p in tips && p in nodes ==> nodes[p].block.timestamp <= block.timestamp
    requires rules.requirePow ==> Pow.MeetsTarget(Id(block), block.work)
    ensures OutcomeOf(nodes, rules, subsidy, depth, stored, block, txs) == Inserted(Id(block))
  {
    TipsSeeEverything(k, genesis, nodes, tips, block.parents);
    TipsPreState(k, genesis, nodes, tips, block.parents, subsidy);
    assert forall p :: p in block.parents ==> p in tips by {
      assert forall p :: p in block.parents ==> p in Elements(block.parents);
    }
    ParentsStored(nodes, block.parents);
    NewOnTips(nodes, block);
    hide Consistent, RunOver, PreState, BlockOutcome, Linearization, IsHeaviest, Id, StructureRefusal;
    TipIsNotFinal(nodes, depth);
    PassesRules(nodes, rules, block);
    hide Refusal;
    assert Passes(nodes, subsidy, depth, stored, block, txs);
    PassedOutcome(nodes, rules, subsidy, depth, stored, block, txs);
  }

  /** Nor is any block on all tips inserted whose transactions do not apply to the full state. */
  lemma TipsBlockRefused(k: nat, genesis: BlockId, nodes: Nodes, tips: set<BlockId>, rules: Rules, subsidy: u64,
                         depth: nat, stored: set<BlockId>, block: Block, txs: seq<Transaction>)
    requires Consistent(k, genesis, nodes, tips) && Lineages(nodes) && nodes != map[]
    requires Elements(block.parents) == tips
    requires BlockOutcome(RunOver(nodes, Linearization(nodes, HeaviestBlock(nodes)), subsidy).utxo, txs, subsidy).Err?
    ensures !OutcomeOf(nodes, rules, subsidy, depth, stored, block, txs).Inserted?
    ensures Id(block) !in nodes && HeaviestBlock(nodes) in stored ==>
              OutcomeOf(nodes, rules, subsidy, depth, stored, block, txs) ==
              Refused(StateInvalid(BlockOutcome(
                                     RunOver(nodes, Linearization(nodes, HeaviestBlock(nodes)), subsidy).utxo,
                                     txs, subsidy).error))
  {
    TipsSeeEverything(k, genesis, nodes, tips, block.parents);
    TipsPreState(k, genesis, nodes, tips, block.parents, subsidy);
    if Id(block) !in nodes {
      NewOnTips(nodes, block);
    }
    TipIsNotFinal(nodes, depth);
    hide Consistent, RunOver, PreState, BlockOutcome, Linearization, IsHeaviest, Id, StructureRefusal, Refusal,
         OutcomeOf;
    OutcomeSteps(nodes, subsidy, depth, stored, block, txs);
    var outcome := OutcomeOf(nodes, rules, subsidy, depth, stored, block, txs);
  }

  lemma NewOnTips(nodes: Nodes, block: Block)
    requires Id(block) !in nodes && block.parents != [] && Present(nodes, block.parents)
    ensures StructureRefusal(nodes, block).None?
  {
    hide Id;
  }

  /** The selected tip itself is never below the threshold. */
  lemma TipIsNotFinal(nodes: Nodes, depth: nat)
    requires nodes != map[]
    ensures Score(nodes, HeaviestBlock(nodes)) >= FinalityOf(nodes, depth)
  {
    hide IsHeaviest;
  }

  lemma PassesRules(nodes: Nodes, rules: Rules, block: Block)
    requires Lineages(nodes) && StructureRefusal(nodes, block).None?
    requires rules.validator.Some? ==> rules.validator.value(block).None?
    requires rules.difficulty.Some? ==>
               && block.work == RequiredWork(nodes, rules.difficulty.value, HeaviestOf(nodes, block.parents))
               && forall p :: p in block.parents ==> nodes[p].block.timestamp <= block.timestamp
    requires rules.requirePow ==> Pow.MeetsTarget(Id(block), block.work)
    ensures Refusal(nodes, rules, block).None?
  {
    if rules.difficulty.Some? {
      RequiredWorkPasses(nodes, rules.difficulty.value, block);
    }
    hide IsHeaviest, DifficultyRefusal, RequiredWork, Id;
  }
}
