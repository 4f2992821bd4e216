/** A full node: a ledger, pending transactions, and block production. */
module FullNodes {
  import opened Types
  import opened Graphs
  import opened Bytes
  import opened Blocks
  import opened Ghostdag
  import opened Consensus
  import opened ChainSelection
  import opened Order
  import opened Acceptance
  import opened Oracle
  import opened Transactions
  import opened Utxos
  import opened Apply
  import opened Validation
  import opened States
  import opened Finality
  import opened Ledgers
  import opened Production
  import Pow

  /** `NoNonce` and `StateLost` are the places where the code panics instead. */
  datatype NodeError =
    | NotInitialized
    | UnexpectedCoinbase
    | InsertRefused(refused: LedgerInsertError)
    | NoNonce
    | StateLost

  /** The full state of a DAG's ledger. */
  ghost function FullState(nodes: Nodes, subsidy: u64): Utxo
    requires Lineages(nodes) && nodes != map[]
  {
    RunOver(nodes, Linearization(nodes, HeaviestBlock(nodes)), subsidy).utxo
  }

  // ------------------------------------------------------------------
  // Stamps

  /** A time after every parent's, and not before `now`. */
  method NextTimestamp(nodes: Nodes, parents: seq<BlockId>, now: u64) returns (t: u64)
    requires forall p :: p in parents ==> p in nodes && nodes[p].block.timestamp < U64_MAX
    ensures now <= t && forall p :: p in parents ==> nodes[p].block.timestamp < t
    ensures t == now || exists p :: p in parents && t == nodes[p].block.timestamp + 1
  {
    var floor: u64 := 0;
    for i := 0 to |parents|
      invariant forall p :: p in parents[..i] ==> nodes[p].block.timestamp < floor
      invariant floor == 0 || exists p :: p in parents && floor == nodes[p].block.timestamp + 1
    {
      var p := parents[i];
      assert p in parents;
      assert parents[..i + 1] == parents[..i] + [p];
      if floor < nodes[p].block.timestamp + 1 {
        floor := nodes[p].block.timestamp + 1;
      }
    }
    assert parents[..|parents|] == parents;
    t := Max(now, floor);
  }

  /** The nonce to stamp: a mined one when proof of work is on, zero otherwise. */
  method MineNonce(requirePow: bool, parents: seq<BlockId>, work: u128, timestamp: u64, payload: Bytes)
    returns (nonce: Option<u64>)
    ensures !requirePow ==> nonce == Some(0)
    ensures requirePow && nonce.Some? ==> Pow.IsMined(MakeBlock(parents, work, timestamp, nonce.value, payload))
    ensures nonce.None? ==> requirePow && forall n: u64 :: !Pow.IsMined(MakeBlock(parents, work, timestamp, n, payload))
  {
    if !requirePow {
      return Some(0);
    }
    var template := MakeBlock(parents, work, timestamp, 0, payload);
    Pow.MinesLeastNonce(template, 0);
    hide Pow.IsMined;
    assert forall n: u64 :: Pow.WithNonce(template, n) == MakeBlock(parents, work, timestamp, n, payload);
    match Pow.MineFrom(template, 0)
    case None => nonce := None;
    case Some(b) => nonce := Some(b.nonce);
  }

  // ------------------------------------------------------------------
  // Choosing transactions

  /** Try each candidate on the working set and keep those that apply. */
  method SelectTxs(working: UtxoSet, cands: seq<Transaction>, subsidy: u64) returns (selected: seq<Transaction>)
    modifies working
    ensures Picks(selected, working.entries) == Picked(old(working.entries), cands, subsidy)
    // Exactly the candidates that apply when their turn comes are selected.
    ensures exists count, sets :: Greedy(old(working.entries), cands, subsidy, selected, working.entries, count, sets)
  {
    hide BlockOutcome, Greedy;
    ghost var u := working.entries;
    selected := [];
    assert cands[..0] == [];
    for i := 0 to |cands|
      invariant Picks(selected, working.entries) == Picked(u, cands[..i], subsidy)
    {
      assert cands[..i + 1][..i] == cands[..i];
      var applied := ApplyBlock(working, [cands[i]], subsidy);
      if applied.Ok? {
        selected := selected + [cands[i]];
      }
    }
    assert cands[..|cands|] == cands;
    ghost var count, sets := PickedIsGreedy(u, cands, subsidy);
  }

  /** The fees the selected transactions seem to pay, looked up in the original state. */
  method FeesOf(original: UtxoSet, selected: seq<Transaction>) returns (fees: nat)
    ensures fees == FeesIn(original.entries, selected)
  {
    fees := 0;
    assert selected[..0] == [];
    for i := 0 to |selected|
      invariant fees == FeesIn(original.entries, selected[..i])
    {
      hide FeeIn;
      assert selected[..i + 1][..i] == selected[..i];
      var fee := FeeOf(original, selected[i]);
      fees := fees + fee;
    }
    assert selected[..|selected|] == selected;
  }

  /** The tips in some order. */
  method ListTips(tips: set<BlockId>) returns (s: seq<BlockId>)
    ensures Elements(s) == tips
  {
    s := [];
    var rest := tips;
    while rest != {}
      invariant rest <= tips && Elements(s) == tips - rest
      decreases rest
    {
      var t :| t in rest;
      Snoc(s, t);
      s := s + [t];
      rest := rest - {t};
    }
  }

  // ------------------------------------------------------------------
  // Producing a block

  /** The block production goes for. */
  datatype Attempt = Attempt(block: Block, txs: seq<Transaction>)

  /** A block on all tips, stamped after all of them, carrying the picked transactions behind
      an issuance coinbase, with the work the rules ask for. */
  ghost predicate OnTips(nodes: Nodes, tips: set<BlockId>, rules: Rules, subsidy: u64, miner: Option<Address>, now: u64,
                         selected: seq<Transaction>, a: Attempt)
    requires Lineages(nodes) && nodes != map[]
  {
    && Elements(a.block.parents) == tips && now <= a.block.timestamp
    && (|| a.block.timestamp == now
        || exists p :: p in tips && p in nodes && a.block.timestamp == nodes[p].block.timestamp + 1)
    && (forall p :: p in tips && p in nodes ==> nodes[p].block.timestamp < a.block.timestamp)
    && a.block.payload == EncodePayload(a.txs)
    && a.txs == IssuanceTxs(miner, IssuanceAt(subsidy, |nodes|), a.block.timestamp,
                            FeesIn(FullState(nodes, subsidy), selected)) + selected
    && a.block.work ==
       (match rules.difficulty case None => 1 case Some(r) => RequiredWork(nodes, r, HeaviestBlock(nodes)))
  }

  /** What a digest without collisions gives for this attempt: pending transactions and state
      agree on names, and the block's id is new. */
  ghost predicate NoCollision(nodes: Nodes, subsidy: u64, cands: seq<Transaction>, a: Attempt)
    requires Lineages(nodes) && nodes != map[]
  {
    NamesAgree(FullState(nodes, subsidy), cands) && Id(a.block) !in nodes
  }

  /** The first outpoint of the attempt's coinbase is not taken. A coinbase is named by its
      amount, its miner and the block's timestamp, so one of an earlier block may have it. */
  ghost predicate CoinbaseIsNew(nodes: Nodes, subsidy: u64, cands: seq<Transaction>, miner: Option<Address>, a: Attempt)
    requires Lineages(nodes) && nodes != map[]
  {
    var u := FullState(nodes, subsidy);
    var p := Picked(u, cands, subsidy);
    FreshCoinbase(p.after, IssuanceTxs(miner, IssuanceAt(subsidy, |nodes|), a.block.timestamp, FeesIn(u, p.selected)))
  }

  /** The attempt goes in exactly if its coinbase is new. */
  lemma AttemptInserted(k: nat, genesis: BlockId, nodes: Nodes, tips: set<BlockId>, rules: Rules, subsidy: u64,
                        depth: nat, stored: set<BlockId>, cands: seq<Transaction>, miner: Option<Address>, now: u64,
                        a: Attempt)
    requires Consistent(k, genesis, nodes, tips) && Lineages(nodes) && nodes != map[] && HeaviestBlock(nodes) in stored
    requires Spends(cands) && Total(FullState(nodes, subsidy)) + subsidy <= U64_MAX
    requires OnTips(nodes, tips, rules, subsidy, miner, now, Picked(FullState(nodes, subsidy), cands, subsidy).selected,
                    a)
    requires NoCollision(nodes, subsidy, cands, a) && AllEncodable(a.txs)
    requires rules.validator.Some? ==> Structural(rules.validator.value)
    requires rules.requirePow ==> Pow.IsMined(a.block)
    ensures CoinbaseIsNew(nodes, subsidy, cands, miner, a) ==>
              OutcomeOf(nodes, rules, subsidy, depth, stored, a.block, a.txs) == Inserted(Id(a.block))
    ensures !CoinbaseIsNew(nodes, subsidy, cands, miner, a) ==>
              && a.txs != []
              && OutcomeOf(nodes, rules, subsidy, depth, stored, a.block, a.txs) ==
                 Refused(StateInvalid(OutputAlreadyExists(OutPoint(TxIdOf(a.txs[0]), 0))))
  {
    var u := FullState(nodes, subsidy);
    hide Consistent, RunOver, Linearization, HeaviestBlock, Picked, FeesIn, NamesAgree, FreshCoinbase, IssuanceTxs,
         BlockOutcome, Id,
         EncodePayload, RequiredWork, Total, PayloadOk, AllEncodable;
    AssembledApplies(u, cands, subsidy, miner, IssuanceAt(subsidy, |nodes|), a.block.timestamp);
    if CoinbaseIsNew(nodes, subsidy, cands, miner, a) {
      AppliedIsStructured(u, a.txs, subsidy);
      if rules.validator.Some? {
        assert rules.validator.value(a.block).None?;
      }
      TipsBlockInserted(k, genesis, nodes, tips, rules, subsidy, depth, stored, a.block, a.txs);
    } else {
      TipsBlockRefused(k, genesis, nodes, tips, rules, subsidy, depth, stored, a.block, a.txs);
    }
  }

  /** The result reports the outcome of the insert, or that no nonce fits the target. */
  ghost predicate Tried(r: Result<BlockId, NodeError>, outcome: InsertOutcome, rules: Rules, a: Attempt) {
    match r
    case Ok(id) => outcome == Inserted(id)
    case Err(InsertRefused(e)) => outcome == Refused(e)
    case Err(StateLost) => outcome.StateMissing?
    case Err(NoNonce) => rules.requirePow && forall n: u64 :: !Pow.IsMined(Pow.WithNonce(a.block, n))
    case Err(_) => false
  }

  /** Build a block on all tips around the selected transactions and insert it. */
  method InsertOnTips(ledger: Ledger, selected: seq<Transaction>, fees: nat, miner: Option<Address>, now: u64)
    returns (r: Result<BlockId, NodeError>, ghost a: Attempt)
    requires && ledger.Valid() && |ledger.dag.nodes| < ROOT_CAPACITY && ledger.dag.nodes != map[]
             && Lineages(ledger.dag.nodes)
    requires forall p :: p in ledger.dag.tips && p in ledger.dag.nodes ==> ledger.dag.nodes[p].block.timestamp < U64_MAX
    requires AllEncodable(selected) && |selected| + 1 < TWO_64
    requires fees == FeesIn(FullState(ledger.dag.nodes, ledger.subsidy), selected)
    modifies ledger`states, ledger.dag`nodes, ledger.dag`tips, ledger.dag.reach
    ensures ledger.Valid() && ledger.dag.CurrentRules() == old(ledger.dag.CurrentRules())
    ensures OnTips(old(ledger.dag.nodes), old(ledger.dag.tips), ledger.dag.CurrentRules(), ledger.subsidy, miner, now,
                   selected, a)
    ensures AllEncodable(a.txs)
    ensures Tried(r, OutcomeOf(old(ledger.dag.nodes), ledger.dag.CurrentRules(), ledger.subsidy, ledger.finalityDepth,
                               old(ledger.states.Keys), a.block, a.txs), ledger.dag.CurrentRules(), a)
    ensures r != Err(NoNonce) && ledger.dag.requirePow ==> Pow.IsMined(a.block)
    ensures r.Err? ==>
              && ledger.dag.nodes == old(ledger.dag.nodes) && ledger.dag.tips == old(ledger.dag.tips)
              && ledger.states == old(ledger.states)
    ensures r.Ok? ==> StructureRefusal(old(ledger.dag.nodes), a.block).None?
                      && ledger.dag.nodes == WithBlock(old(ledger.dag.nodes), ledger.dag.k, a.block)
  {
    hide *;
    ledger.Opened();
    var dag := ledger.dag;
    ghost var nodes0, tips0, rules := dag.nodes, dag.tips, dag.CurrentRules();
    dag.RulesNow();
    var parents := ListTips(dag.tips);
    TipsSeeEverything(dag.k, ledger.genesis, nodes0, tips0, parents);
    ParentsStored(nodes0, parents);
    InElements(parents);
    var timestamp := NextTimestamp(dag.nodes, parents, now);
    var target := dag.NextWorkTarget(parents);
    var work := if target.Some? then target.value else 1;
    var txs := IssuanceTxs(miner, IssuanceAt(ledger.subsidy, |dag.nodes|), timestamp, fees) + selected;
    CoinbaseEncodable(miner, IssuanceAt(ledger.subsidy, |dag.nodes|), timestamp, fees, selected);
    var payload := EncodeBlockPayload(txs);
    var nonce := MineNonce(dag.requirePow, parents, work, timestamp, payload);
    if nonce.None? {
      a := Attempt(MakeBlock(parents, work, timestamp, 0, payload), txs);
      OnTipsIs(nodes0, tips0, rules, ledger.subsidy, miner, now, selected, parents, work, timestamp, 0, txs);
      NoNonceFits(parents, work, timestamp, payload);
      r := Err(NoNonce);
      TriedNoNonce(r,
                   OutcomeOf(nodes0, rules, ledger.subsidy, ledger.finalityDepth, ledger.states.Keys, a.block, a.txs),
                   rules, a);
      return;
    }
    a := Attempt(MakeBlock(parents, work, timestamp, nonce.value, payload), txs);
    OnTipsIs(nodes0, tips0, rules, ledger.subsidy, miner, now, selected, parents, work, timestamp, nonce.value, txs);
    var outcome := ledger.Insert(parents, work, timestamp, nonce.value, txs);
    dag.RulesNow();
    r := Reported(outcome);
    TriedIs(r, outcome, rules, a);
  }

  /** How an insert's outcome is reported. */
  function Reported(outcome: InsertOutcome): Result<BlockId, NodeError> {
    match outcome
    case Inserted(id) => Ok(id)
    case Refused(e) => Err(InsertRefused(e))
    case StateMissing(_) => Err(StateLost)
  }

  lemma TriedIs(r: Result<BlockId, NodeError>, outcome: InsertOutcome, rules: Rules, a: Attempt)
    requires r == Reported(outcome)
    ensures Tried(r, outcome, rules, a)
    ensures r.Ok? <==> outcome.Inserted?
    ensures r.Ok? ==> r.value == outcome.id
    ensures r != Err(NoNonce)
  {
  }

  lemma TriedNoNonce(r: Result<BlockId, NodeError>, outcome: InsertOutcome, rules: Rules, a: Attempt)
    requires && r == Err(NoNonce) && rules.requirePow
             && forall n: u64 {:trigger Pow.WithNonce(a.block, n)} :: !Pow.IsMined(Pow.WithNonce(a.block, n))
    ensures Tried(r, outcome, rules, a)
  {
  }

  lemma NoNonceFits(parents: seq<BlockId>, work: u128, timestamp: u64, payload: Bytes)
    requires forall n: u64 :: !Pow.IsMined(MakeBlock(parents, work, timestamp, n, payload))
    ensures var b := MakeBlock(parents, work, timestamp, 0, payload);
            forall n: u64 {:trigger Pow.WithNonce(b, n)} :: !Pow.IsMined(Pow.WithNonce(b, n))
  {
    hide Pow.IsMined;
    var b := MakeBlock(parents, work, timestamp, 0, payload);
    forall n: u64 ensures Pow.WithNonce(b, n) == MakeBlock(parents, work, timestamp, n, payload) {
    }
  }

  lemma InElements(s: seq<BlockId>)
    ensures forall x :: x in s <==> x in Elements(s)
  {
  }

  lemma CoinbaseEncodable(miner: Option<Address>, issuance: u64, timestamp: u64, fees: nat, selected: seq<Transaction>)
    requires AllEncodable(selected) && |selected| + 1 < TWO_64
    ensures AllEncodable(IssuanceTxs(miner, issuance, timestamp, fees) + selected)
  {
    ToLeLength(timestamp, 8);
    IssuanceShape(miner, issuance, timestamp, fees);
    hide ToLe, IssuanceTxs;
  }

  /** The block assembled on all tips. */
  lemma OnTipsIs(nodes: Nodes, tips: set<BlockId>, rules: Rules, subsidy: u64, miner: Option<Address>, now: u64,
                 selected: seq<Transaction>, parents: seq<BlockId>, work: u128, timestamp: u64, nonce: u64,
                 txs: seq<Transaction>)
    requires Lineages(nodes) && nodes != map[] && Elements(parents) == tips && now <= timestamp
    requires parents != [] && Present(nodes, parents) && HeaviestOf(nodes, parents) == HeaviestBlock(nodes)
    requires forall p :: p in parents && p in nodes ==> nodes[p].block.timestamp < timestamp
    requires timestamp == now || exists p :: p in parents && p in nodes && timestamp == nodes[p].block.timestamp + 1
    requires work ==
             (match rules.difficulty case None => 1 case Some(r) => RequiredWork(nodes, r, HeaviestBlock(nodes)))
    requires txs == IssuanceTxs(miner, IssuanceAt(subsidy, |nodes|), timestamp,
                                FeesIn(FullState(nodes, subsidy), selected)) + selected
    ensures OnTips(nodes, tips, rules, subsidy, miner, now, selected,
                   Attempt(MakeBlock(parents, work, timestamp, nonce, EncodePayload(txs)), txs))
  {
    SortIdsSorts(parents);
    hide RequiredWork, IssuanceTxs, FeesIn, FullState, EncodePayload, SortIds, IsHeaviest;
    var block := MakeBlock(parents, work, timestamp, nonce, EncodePayload(txs));
    assert block.parents == SortIds(parents);
    assert Elements(block.parents) == tips;
    forall p | p in tips && p in nodes ensures nodes[p].block.timestamp < timestamp {
      assert p in Elements(parents);
    }
    if timestamp != now {
      var p :| p in parents && p in nodes && timestamp == nodes[p].block.timestamp + 1;
      assert p in Elements(parents);
    }
  }

  /** Pending transactions are spends, filed under their own ids. */
  ghost predicate Pending(pool: map<TxId, Transaction>) {
    && |pool| + 1 < TWO_64
    && forall id {:trigger pool[id]} ::
         id in pool ==> TxIdOf(pool[id]) == id && !pool[id].IsCoinbase() && Encodable(pool[id])
  }

  /** `order` lists the pending transactions by ascending id. */
  ghost predicate IsOrdered(pool: map<TxId, Transaction>, order: seq<Transaction>) {
    && (forall tx {:trigger TxIdOf(tx)} :: tx in order <==> TxIdOf(tx) in pool && pool[TxIdOf(tx)] == tx)
    && (forall i, j :: 0 <= i < j < |order| ==> TxIdOf(order[i]) < TxIdOf(order[j]))
  }

  function InsertTx(s: seq<Transaction>, tx: Transaction): seq<Transaction> {
    if s == [] || TxIdOf(tx) < TxIdOf(s[0]) then [tx] + s else [s[0]] + InsertTx(s[1..], tx)
  }

  ghost predicate AscendingTxs(s: seq<Transaction>) {
    forall i, j :: 0 <= i < j < |s| ==> TxIdOf(s[i]) < TxIdOf(s[j])
  }

  lemma {:induction false} InsertTxSorts(s: seq<Transaction>, tx: Transaction)
    requires AscendingTxs(s) && forall x :: x in s ==> TxIdOf(x) != TxIdOf(tx)
    ensures AscendingTxs(InsertTx(s, tx)) && |InsertTx(s, tx)| == |s| + 1
    ensures forall x :: x in InsertTx(s, tx) <==> x in s || x == tx
  {
    hide TxIdOf;
    if s == [] || TxIdOf(tx) < TxIdOf(s[0]) {
    } else {
      InsertTxSorts(s[1..], tx);
      var r := InsertTx(s[1..], tx);
      assert forall x :: x in s <==> x == s[0] || x in s[1..];
      forall j | 0 <= j < |r| ensures TxIdOf(s[0]) < TxIdOf(r[j]) {
        assert r[j] in r;
      }
    }
  }

  /** The pending transactions in id order. */
  method Ordered(pool: map<TxId, Transaction>) returns (order: seq<Transaction>)
    requires Pending(pool)
    ensures IsOrdered(pool, order) && |order| == |pool|
    ensures forall tx :: tx in order <==> tx in pool.Values
    ensures forall i, j :: 0 <= i < j < |order| ==> TxIdOf(order[i]) < TxIdOf(order[j])
  {
    hide TxIdOf;
    order := [];
    var rest := pool.Keys;
    while rest != {}
      invariant rest <= pool.Keys && AscendingTxs(order) && |order| + |rest| == |pool|
      invariant forall tx {:trigger TxIdOf(tx)} ::
                  tx in order <==> TxIdOf(tx) in pool && pool[TxIdOf(tx)] == tx && TxIdOf(tx) !in rest
      decreases rest
    {
      var id :| id in rest;
      assert TxIdOf(pool[id]) == id;
      InsertTxSorts(order, pool[id]);
      order := InsertTx(order, pool[id]);
      rest := rest - {id};
    }
  }

  lemma OrderedSpends(pool: map<TxId, Transaction>, order: seq<Transaction>)
    requires Pending(pool) && IsOrdered(pool, order) && |order| == |pool|
    ensures Spends(order) && AllEncodable(order)
  {
    forall tx | tx in order ensures !tx.IsCoinbase() && Encodable(tx) {
      assert pool[TxIdOf(tx)] == tx;
    }
  }

  lemma {:induction false} PickedFrom(u: Utxo, cands: seq<Transaction>, subsidy: u64)
    ensures var s := Picked(u, cands, subsidy).selected;
            |s| <= |cands| && forall tx :: tx in s ==> tx in cands
  {
    hide BlockOutcome;
    if cands != [] {
      PickedFrom(u, cands[..|cands| - 1], subsidy);
      assert forall x :: x in cands[..|cands| - 1] ==> x in cands;
    }
  }

  /** What production needs of the machine's words: labels, amounts and times do not overflow. */
  ghost predicate Ready(nodes: Nodes, tips: set<BlockId>, subsidy: u64) {
    && nodes != map[] && Lineages(nodes) && |nodes| < ROOT_CAPACITY
    && Total(FullState(nodes, subsidy)) + subsidy <= U64_MAX
    && forall p :: p in tips && p in nodes ==> nodes[p].block.timestamp < U64_MAX
  }

  /** Nothing to include; or the block gone for, and whether it went in. */
  ghost predicate Outcome(nodes: Nodes, tips: set<BlockId>, rules: Rules, subsidy: u64, miner: Option<Address>,
                          now: u64, cands: seq<Transaction>, r: Result<Option<BlockId>, NodeError>, a: Option<Attempt>,
                          nodes': Nodes, k: nat)
    requires Lineages(nodes) && nodes != map[]
  {
    var selected := Picked(FullState(nodes, subsidy), cands, subsidy).selected;
    if selected == [] then a == None && r == Ok(None) && nodes' == nodes
    else
      && a.Some? && OnTips(nodes, tips, rules, subsidy, miner, now, selected, a.value)
      && (if r.Ok? then r.value == Some(Id(a.value.block)) && StructureRefusal(nodes, a.value.block).None?
                        && nodes' == WithBlock(nodes, k, a.value.block)
          else nodes' == nodes)
      // Without digest collisions the block goes in exactly if its coinbase is new, unless no
      // nonce meets the target.
      && (&& NoCollision(nodes, subsidy, cands, a.value)
          && (rules.validator.Some? ==> Structural(rules.validator.value)) ==>
            || (r.Ok? <==> CoinbaseIsNew(nodes, subsidy, cands, miner, a.value))
            || (&& r == Err(NoNonce) && rules.requirePow
                && forall n: u64 :: !Pow.IsMined(Pow.WithNonce(a.value.block, n))))
  }

  /** Select from the candidates, and insert a block of what was selected. */
  method PackAndInsert(ledger: Ledger, cands: seq<Transaction>, miner: Option<Address>, now: u64)
    returns (r: Result<Option<BlockId>, NodeError>, selected: seq<Transaction>, ghost a: Option<Attempt>)
    requires ledger.Valid() && Ready(ledger.dag.nodes, ledger.dag.tips, ledger.subsidy)
    requires Spends(cands) && AllEncodable(cands) && |cands| + 1 < TWO_64
    modifies ledger`states, ledger.dag`nodes, ledger.dag`tips, ledger.dag.reach
    ensures ledger.Valid() && ledger.dag.CurrentRules() == old(ledger.dag.CurrentRules())
    ensures Lineages(old(ledger.dag.nodes)) && old(ledger.dag.nodes) != map[]
    ensures selected == Picked(FullState(old(ledger.dag.nodes), ledger.subsidy), cands, ledger.subsidy).selected
    ensures Outcome(old(ledger.dag.nodes), old(ledger.dag.tips), ledger.dag.CurrentRules(), ledger.subsidy,
                    miner, now, cands, r, a, ledger.dag.nodes, ledger.dag.k)
  {
    hide *;
    ReadyMeans(ledger.dag.nodes, ledger.dag.tips, ledger.subsidy);
    ledger.Opened();
    var dag := ledger.dag;
    dag.RulesNow();
    ghost var nodes0, tips0, rules, stored0 := dag.nodes, dag.tips, dag.CurrentRules(), ledger.states.Keys;
    var state := ledger.LedgerState();
    FullStateIs(dag.nodes, ledger.subsidy);
    var working := new UtxoSet.Clone(state);
    var original := new UtxoSet.Clone(state);
    selected := SelectTxs(working, cands, ledger.subsidy);
    ghost var u := FullState(nodes0, ledger.subsidy);
    SelectedIs(u, cands, ledger.subsidy, selected, working.entries);
    if selected == [] {
      NothingOut(nodes0, tips0, rules, ledger.subsidy, miner, now, cands, dag.k);
      return Ok(None), selected, None;
    }
    PickedFrom(u, cands, ledger.subsidy);
    SelectedEncodable(cands, selected);
    var fees := FeesOf(original, selected);
    var inserted, attempt := InsertOnTips(ledger, selected, fees, miner, now);
    a := Some(attempt);
    r := Wrapped(inserted);
    Attempted(dag.k, ledger.genesis, nodes0, tips0, rules, ledger.subsidy, ledger.finalityDepth, stored0, cands, miner,
              now,
              attempt, inserted, dag.nodes);
  }

  function Wrapped(r: Result<BlockId, NodeError>): Result<Option<BlockId>, NodeError> {
    match r
    case Ok(id) => Ok(Some(id))
    case Err(e) => Err(e)
  }

  lemma ReadyMeans(nodes: Nodes, tips: set<BlockId>, subsidy: u64)
    requires Ready(nodes, tips, subsidy)
    ensures nodes != map[] && Lineages(nodes) && |nodes| < ROOT_CAPACITY
    ensures Total(FullState(nodes, subsidy)) + subsidy <= U64_MAX
    ensures forall p :: p in tips && p in nodes ==> nodes[p].block.timestamp < U64_MAX
  {
  }

  lemma FullStateIs(nodes: Nodes, subsidy: u64)
    requires Lineages(nodes) && nodes != map[]
    ensures FullState(nodes, subsidy) == RunOver(nodes, Linearization(nodes, HeaviestBlock(nodes)), subsidy).utxo
  {
  }

  lemma SelectedIs(u: Utxo, cands: seq<Transaction>, subsidy: u64, selected: seq<Transaction>, after: Utxo)
    requires Picks(selected, after) == Picked(u, cands, subsidy)
    ensures selected == Picked(u, cands, subsidy).selected
  {
  }

  lemma SelectedEncodable(cands: seq<Transaction>, selected: seq<Transaction>)
    requires AllEncodable(cands) && |selected| <= |cands| && forall tx :: tx in selected ==> tx in cands
    ensures AllEncodable(selected)
  {
  }

  lemma NothingOut(nodes: Nodes, tips: set<BlockId>, rules: Rules, subsidy: u64, miner: Option<Address>, now: u64,
                   cands: seq<Transaction>, k: nat)
    requires Lineages(nodes) && nodes != map[] && Picked(FullState(nodes, subsidy), cands, subsidy).selected == []
    ensures Outcome(nodes, tips, rules, subsidy, miner, now, cands, Ok(None), None, nodes, k)
  {
  }

  lemma Attempted(k: nat, genesis: BlockId, nodes: Nodes, tips: set<BlockId>, rules: Rules, subsidy: u64, depth: nat,
                  stored: set<BlockId>, cands: seq<Transaction>, miner: Option<Address>, now: u64, a: Attempt,
                  r: Result<BlockId, NodeError>, nodes': Nodes)
    requires Consistent(k, genesis, nodes, tips) && Ready(nodes, tips, subsidy)
    requires nodes != map[] && Lineages(nodes) && HeaviestBlock(nodes) in stored && Spends(cands)
    requires Picked(FullState(nodes, subsidy), cands, subsidy).selected != []
    requires OnTips(nodes, tips, rules, subsidy, miner, now, Picked(FullState(nodes, subsidy), cands, subsidy).selected,
                    a)
    requires AllEncodable(a.txs) && Tried(r, OutcomeOf(nodes, rules, subsidy, depth, stored, a.block, a.txs), rules, a)
    requires r != Err(NoNonce) && rules.requirePow ==> Pow.IsMined(a.block)
    requires r.Err? ==> nodes' == nodes
    requires r.Ok? ==> StructureRefusal(nodes, a.block).None? && nodes' == WithBlock(nodes, k, a.block)
    ensures Outcome(nodes, tips, rules, subsidy, miner, now, cands, Wrapped(r), Some(a), nodes', k)
  {
    hide *;
    ReadyMeans(nodes, tips, subsidy);
    InsertedId(nodes, rules, subsidy, depth, stored, a.block, a.txs);
    var outcome := OutcomeOf(nodes, rules, subsidy, depth, stored, a.block, a.txs);
    TriedMeans(r, outcome, rules, a);
    if && NoCollision(nodes, subsidy, cands, a) && r != Err(NoNonce)
       && (rules.validator.Some? ==> Structural(rules.validator.value))
    {
      AttemptInserted(k, genesis, nodes, tips, rules, subsidy, depth, stored, cands, miner, now, a);
    }
    OutcomeFrom(nodes, tips, rules, subsidy, cands, miner, now, a, r, nodes', k);
  }

  lemma TriedMeans(r: Result<BlockId, NodeError>, outcome: InsertOutcome, rules: Rules, a: Attempt)
    requires Tried(r, outcome, rules, a)
    ensures r.Ok? ==> outcome == Inserted(r.value)
    ensures outcome.Inserted? ==> r.Ok? || r == Err(NoNonce)
    ensures r == Err(NoNonce) ==>
              && rules.requirePow
              && forall n: u64 {:trigger Pow.WithNonce(a.block, n)} :: !Pow.IsMined(Pow.WithNonce(a.block, n))
  {
    hide Pow.IsMined, Pow.WithNonce;
  }

  lemma OutcomeFrom(nodes: Nodes, tips: set<BlockId>, rules: Rules, subsidy: u64, cands: seq<Transaction>,
                    miner: Option<Address>, now: u64, a: Attempt, r: Result<BlockId, NodeError>, nodes': Nodes, k: nat)
    requires nodes != map[] && Lineages(nodes) && Picked(FullState(nodes, subsidy), cands, subsidy).selected != []
    requires OnTips(nodes, tips, rules, subsidy, miner, now, Picked(FullState(nodes, subsidy), cands, subsidy).selected,
                    a)
    requires r.Err? ==> nodes' == nodes
    requires r.Ok? ==>
               && r.value == Id(a.block) && StructureRefusal(nodes, a.block).None?
               && nodes' == WithBlock(nodes, k, a.block)
    requires NoCollision(nodes, subsidy, cands, a) && (rules.validator.Some? ==> Structural(rules.validator.value)) ==>
               (r.Ok? <==> CoinbaseIsNew(nodes, subsidy, cands, miner, a)) || r == Err(NoNonce)
    requires r == Err(NoNonce) ==>
               && rules.requirePow
               && forall n: u64 {:trigger Pow.WithNonce(a.block, n)} :: !Pow.IsMined(Pow.WithNonce(a.block, n))
    ensures Outcome(nodes, tips, rules, subsidy, miner, now, cands, Wrapped(r), Some(a), nodes', k)
  {
    hide OnTips, NoCollision, CoinbaseIsNew, Structural, FullState, Picked, StructureRefusal, WithBlock, Id, Lineages,
         Pow.IsMined, Pow.WithNonce;
  }

  lemma InsertedId(nodes: Nodes, rules: Rules, subsidy: u64, depth: nat, stored: set<BlockId>, block: Block,
                   txs: seq<Transaction>)
    requires Lineages(nodes) && nodes != map[]
    ensures var outcome := OutcomeOf(nodes, rules, subsidy, depth, stored, block, txs);
            outcome.Inserted? ==> outcome.id == Id(block)
  {
    hide StructureRefusal, FinalityOf, Score, BlockOutcome, PreState, Refusal, IsHeaviest, Id;
  }

  predicate AllThere(state: Utxo, tx: Transaction) {
    forall i {:trigger tx.inputs[i]} :: 0 <= i < |tx.inputs| ==> tx.inputs[i].outpoint in state
  }

  /** What stays pending after a block: nothing it included, and nothing whose inputs are gone. */
  ghost function Surviving(pool: map<TxId, Transaction>, selected: seq<Transaction>,
                           state: Utxo): map<TxId, Transaction> {
    map id | id in pool && pool[id] !in selected && AllThere(state, pool[id]) :: pool[id]
  }

  /** What stays pending is what the block does not carry and whose inputs are all unspent after it. */
  ghost predicate StaysPending(pool: map<TxId, Transaction>, txs: seq<Transaction>, state: Utxo,
                               after: map<TxId, Transaction>) {
    && (forall id {:trigger id in after} :: id in after <==>
          && id in pool && pool[id] !in txs
          && forall i {:trigger pool[id].inputs[i]} :: 0 <= i < |pool[id].inputs| ==>
               pool[id].inputs[i].outpoint in state)
    && forall id :: id in after ==> after[id] == pool[id]
  }

  lemma SurvivingMeans(pool: map<TxId, Transaction>, selected: seq<Transaction>, txs: seq<Transaction>, state: Utxo)
    requires forall id :: id in pool ==> (pool[id] in txs <==> pool[id] in selected)
    ensures StaysPending(pool, txs, state, Surviving(pool, selected, state))
  {
  }

  /** The block carries the selected transactions behind a coinbase, which is never pending. */
  lemma CarriedMeans(pool: map<TxId, Transaction>, nodes: Nodes, tips: set<BlockId>, rules: Rules, subsidy: u64,
                     miner: Option<Address>, now: u64, cands: seq<Transaction>, r: Result<Option<BlockId>, NodeError>,
                     a: Option<Attempt>, nodes': Nodes, k: nat)
    requires Pending(pool) && Lineages(nodes) && nodes != map[]
    requires Outcome(nodes, tips, rules, subsidy, miner, now, cands, r, a, nodes', k) && r.Ok? && r.value.Some?
    ensures var selected := Picked(FullState(nodes, subsidy), cands, subsidy).selected;
            a.Some? && forall id :: id in pool ==> (pool[id] in a.value.txs <==> pool[id] in selected)
  {
    hide *;
    var selected := Picked(FullState(nodes, subsidy), cands, subsidy).selected;
    OutcomeTxs(nodes, tips, rules, subsidy, miner, now, cands, r, a, nodes', k);
    var fees := FeesIn(FullState(nodes, subsidy), selected);
    IssuanceShape(miner, IssuanceAt(subsidy, |nodes|), a.value.block.timestamp, fees);
    PendingSpends(pool);
  }

  lemma OutcomeTxs(nodes: Nodes, tips: set<BlockId>, rules: Rules, subsidy: u64, miner: Option<Address>, now: u64,
                   cands: seq<Transaction>, r: Result<Option<BlockId>, NodeError>, a: Option<Attempt>, nodes': Nodes,
                   k: nat)
    requires Lineages(nodes) && nodes != map[]
    requires Outcome(nodes, tips, rules, subsidy, miner, now, cands, r, a, nodes', k) && r.Ok? && r.value.Some?
    ensures var selected := Picked(FullState(nodes, subsidy), cands, subsidy).selected;
            && a.Some?
            && a.value.txs == IssuanceTxs(miner, IssuanceAt(subsidy, |nodes|), a.value.block.timestamp,
                                          FeesIn(FullState(nodes, subsidy), selected)) + selected
  {
    hide IssuanceTxs, FeesIn, FullState, RequiredWork, HeaviestBlock, EncodePayload, Picked, IssuanceAt, Structural,
         NoCollision, CoinbaseIsNew, StructureRefusal, WithBlock, Id, Pow.IsMined, Pow.WithNonce;
  }

  lemma PendingSpends(pool: map<TxId, Transaction>)
    requires Pending(pool)
    ensures forall id :: id in pool ==> !pool[id].IsCoinbase()
  {
    hide TxIdOf;
  }

  /** Remove the included transactions by their ids. */
  method RemoveAll(pool0: map<TxId, Transaction>, selected: seq<Transaction>) returns (pool: map<TxId, Transaction>)
    requires Pending(pool0) && forall tx :: tx in selected ==> TxIdOf(tx) in pool0 && pool0[TxIdOf(tx)] == tx
    ensures pool == map id | id in pool0 && pool0[id] !in selected :: pool0[id]
  {
    hide TxIdOf;
    pool := pool0;
    for i := 0 to |selected|
      invariant forall id :: id in pool <==> id in pool0 && pool0[id] !in selected[..i]
      invariant forall id :: id in pool ==> pool[id] == pool0[id]
    {
      assert selected[i] in selected;
      assert selected[..i + 1] == selected[..i] + [selected[i]];
      assert forall id :: id in pool0 && pool0[id] == selected[i] ==> id == TxIdOf(selected[i]);
      pool := pool - {TxIdOf(selected[i])};
    }
    assert selected[..|selected|] == selected;
  }

  /** Keep the transactions all of whose inputs are unspent, visiting them in any order. */
  method EvictInvalid(pool0: map<TxId, Transaction>, state: Utxo) returns (pool: map<TxId, Transaction>)
    ensures pool == map id | id in pool0 && AllThere(state, pool0[id]) :: pool0[id]
  {
    hide AllThere;
    pool := pool0;
    var rest := pool.Keys;
    while rest != {}
      invariant rest <= pool0.Keys
      invariant forall id :: id in pool <==> id in pool0 && (id in rest || AllThere(state, pool0[id]))
      invariant forall id :: id in pool ==> pool[id] == pool0[id]
      decreases rest
    {
      var id :| id in rest;
      rest := rest - {id};
      if !AllThere(state, pool[id]) {
        pool := pool - {id};
      }
    }
  }

  lemma SomePending(pool0: map<TxId, Transaction>, pool: map<TxId, Transaction>)
    requires Pending(pool0) && pool.Keys <= pool0.Keys && forall id :: id in pool ==> pool[id] == pool0[id]
    ensures Pending(pool)
  {
    hide TxIdOf;
    SubsetCardinality(pool.Keys, pool0.Keys);
    assert |pool| == |pool.Keys| && |pool0| == |pool0.Keys|;
  }

  /** Remove what was included, then what has lost an input. */
  method Evict(pool0: map<TxId, Transaction>, selected: seq<Transaction>, state: Utxo)
    returns (pool: map<TxId, Transaction>)
    requires Pending(pool0) && forall tx :: tx in selected ==> TxIdOf(tx) in pool0 && pool0[TxIdOf(tx)] == tx
    ensures pool == Surviving(pool0, selected, state) && Pending(pool)
  {
    hide TxIdOf, AllThere, Pending;
    var left := RemoveAll(pool0, selected);
    pool := EvictInvalid(left, state);
    SomePending(pool0, pool);
  }

  class FullNode {
    var ledger: Ledger?
    var mempool: map<TxId, Transaction>
    var miner: Option<Address>

    ghost predicate Valid()
      reads this, ledger, if ledger == null then {} else {ledger.dag, ledger.dag.reach}
    {
      Pending(mempool) && (ledger != null ==> ledger.Valid())
    }

    /** Accept a relayed transaction. A coinbase is refused; one already pending changes nothing. */
    method SubmitTx(tx: Transaction) returns (r: Result<TxId, NodeError>)
      requires Valid() && Encodable(tx) && |mempool| + 2 < TWO_64
      modifies this`mempool
      ensures Valid()
      ensures tx.IsCoinbase() ==> r == Err(UnexpectedCoinbase) && mempool == old(mempool)
      ensures !tx.IsCoinbase() ==>
                && r == Ok(TxIdOf(tx))
                && mempool == if TxIdOf(tx) in old(mempool) then old(mempool) else old(mempool)[TxIdOf(tx) := tx]
    {
      hide TxIdOf;
      if tx.IsCoinbase() {
        return Err(UnexpectedCoinbase);
      }
      var id := TxIdOf(tx);
      if id !in mempool {
        assert mempool[id := tx].Keys == mempool.Keys + {id};
        assert |mempool[id := tx]| == |mempool[id := tx].Keys| && |mempool| == |mempool.Keys|;
        mempool := mempool[id := tx];
      }
      r := Ok(id);
    }

    /** Pack the pending transactions that apply into a block on all tips. `cands` are the
        candidates in the order tried and `a` the block gone for, if any. */
    method ProduceBlock(now: u64)
      returns (r: Result<Option<BlockId>, NodeError>, ghost cands: seq<Transaction>, ghost a: Option<Attempt>)
      requires Valid()
      requires ledger != null ==> Ready(ledger.dag.nodes, ledger.dag.tips, ledger.subsidy)
      modifies this`mempool, if ledger == null then {} else {ledger, ledger.dag, ledger.dag.reach}
      ensures Valid()
      ensures ledger == null ==> r == Err(NotInitialized) && mempool == old(mempool)
      ensures ledger != null ==> old(ledger.dag.nodes) != map[] && Lineages(old(ledger.dag.nodes))
      ensures ledger != null ==> IsOrdered(old(mempool), cands)
      ensures ledger != null ==>
                Outcome(old(ledger.dag.nodes), old(ledger.dag.tips), old(ledger.dag.CurrentRules()), ledger.subsidy,
                        miner, now, cands, r, a, ledger.dag.nodes, ledger.dag.k)
      ensures ledger != null && !(r.Ok? && r.value.Some?) ==> mempool == old(mempool)
      ensures ledger != null && r.Ok? && r.value.Some? ==>
                && ledger.dag.nodes != map[] && Lineages(ledger.dag.nodes)
                && mempool == Surviving(old(mempool),
                                        Picked(FullState(old(ledger.dag.nodes), ledger.subsidy), cands,
                                               ledger.subsidy).selected,
                                        FullState(ledger.dag.nodes, ledger.subsidy))
                && a.Some?
                && StaysPending(old(mempool), a.value.txs, FullState(ledger.dag.nodes, ledger.subsidy), mempool)
    {
      hide *;
      Inside();
      a, cands := None, [];
      if ledger == null {
        return Err(NotInitialized), cands, a;
      }
      ReadyMeans(ledger.dag.nodes, ledger.dag.tips, ledger.subsidy);
      if mempool == map[] {
        NothingPending(mempool, FullState(ledger.dag.nodes, ledger.subsidy), ledger.subsidy);
        NothingOut(ledger.dag.nodes, ledger.dag.tips, ledger.dag.CurrentRules(), ledger.subsidy, miner, now, [],
                   ledger.dag.k);
        return Ok(None), cands, a;
      }
      var order := Ordered(mempool);
      cands := order;
      OrderedSpends(mempool, order);
      PendingFits(mempool);
      ghost var u := FullState(ledger.dag.nodes, ledger.subsidy);
      var selected: seq<Transaction>;
      ghost var nodes0, tips0, rules0 := ledger.dag.nodes, ledger.dag.tips, ledger.dag.CurrentRules();
      r, selected, a := PackAndInsert(ledger, order, miner, now);
      if r.Ok? && r.value.Some? {
        ledger.Opened();
        var state := ledger.LedgerState();
        FullStateIs(ledger.dag.nodes, ledger.subsidy);
        PickedFrom(u, order, ledger.subsidy);
        FromPool(mempool, order, selected);
        ghost var pool0 := mempool;
        mempool := Evict(mempool, selected, state);
        CarriedMeans(pool0, nodes0, tips0, rules0, ledger.subsidy, miner, now, cands, r, a, ledger.dag.nodes,
                     ledger.dag.k);
        SurvivingMeans(pool0, selected, a.value.txs, state);
      }
      Outside();
    }

    lemma Inside()
      requires Valid()
      ensures Pending(mempool) && (ledger != null ==> ledger.Valid())
    {
    }

    lemma Outside()
      requires Pending(mempool) && (ledger != null ==> ledger.Valid())
      ensures Valid()
    {
    }
  }

  lemma NothingPending(pool: map<TxId, Transaction>, u: Utxo, subsidy: u64)
    requires pool == map[]
    ensures IsOrdered(pool, []) && Picked(u, [], subsidy).selected == []
  {
  }

  lemma PendingFits(pool: map<TxId, Transaction>)
    requires Pending(pool)
    ensures |pool| + 1 < TWO_64
  {
  }

  lemma FromPool(pool: map<TxId, Transaction>, order: seq<Transaction>, selected: seq<Transaction>)
    requires IsOrdered(pool, order) && forall tx :: tx in selected ==> tx in order
    ensures forall tx :: tx in selected ==> TxIdOf(tx) in pool && pool[TxIdOf(tx)] == tx
  {
    hide TxIdOf;
  }
}
