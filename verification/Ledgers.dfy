/** The ledger over a DAG: the batch run, and the incremental ledger that caches one state
    per block and prunes by finality. */
module Ledgers {
  import opened Types
  import opened Graphs
  import opened Bytes
  import opened Blocks
  import opened Ghostdag
  import opened Consensus
  import opened ChainSelection
  import opened Order
  import opened Acceptance
  import opened Oracle
  import opened Dags
  import opened Transactions
  import opened Payload
  import opened Utxos
  import opened Apply
  import opened Validation
  import opened States
  import opened Finality

  datatype LedgerRun = LedgerRun(utxo: Utxo, accepted: seq<BlockId>, rejected: seq<(BlockId, LedgerError)>)

  /** Why a payload has no effect on `u`, if it has none. */
  ghost function Objection(u: Utxo, payload: Bytes, subsidy: u64): (r: Option<LedgerError>)
    ensures r.None? <==> Applies(u, payload, subsidy)
  {
    match TxsOf(payload)
    case Err(e) => Some(LedgerError.Payload(e))
    case Ok(txs) => match BlockOutcome(u, txs, subsidy)
                    case Err(e) => Some(e)
                    case Ok(_) => None
  }

  /** The blocks of an order that do not apply when their turn comes, each with the reason. */
  ghost function RejectedIn(nodes: Nodes, order: seq<BlockId>, subsidy: u64): seq<(BlockId, LedgerError)> {
    if order == [] then []
    else
      var init, b := order[..|order| - 1], order[|order| - 1];
      var objection := Objection(Fold(nodes, init, map[], subsidy), PayloadAt(nodes, b), subsidy);
      RejectedIn(nodes, init, subsidy) + (if objection.Some? then [(b, objection.value)] else [])
  }

  /** What a run over a whole order must give. */
  ghost function RunOver(nodes: Nodes, order: seq<BlockId>, subsidy: u64): LedgerRun {
    LedgerRun(Fold(nodes, order, map[], subsidy), AcceptedIn(nodes, order, subsidy), RejectedIn(nodes, order, subsidy))
  }

  /** Decode a payload and apply it, if it applies. */
  method ApplyPayloadTo(utxo: UtxoSet, payload: Bytes, subsidy: u64) returns (objection: Option<LedgerError>)
    modifies utxo
    ensures utxo.entries == ApplyPayload(old(utxo.entries), payload, subsidy)
    ensures objection == Objection(old(utxo.entries), payload, subsidy)
    // A payload that does not apply changes nothing; one that does has the effect of its transactions.
    ensures objection.Some? ==> utxo.entries == old(utxo.entries)
    ensures objection.None? ==>
              && TxsOf(payload).Ok? && BlockOutcome(old(utxo.entries), TxsOf(payload).value, subsidy).Ok?
              && utxo.entries == BlockOutcome(old(utxo.entries), TxsOf(payload).value, subsidy).value.utxo
  {
    hide TxsOf, BlockOutcome;
    var decoded := DecodeBlockPayload(payload);
    if decoded.Err? {
      return Some(LedgerError.Payload(decoded.error));
    }
    var applied := ApplyBlock(utxo, decoded.value, subsidy);
    if applied.Err? {
      return Some(applied.error);
    }
    objection := None;
  }

  lemma RunStep(nodes: Nodes, order: seq<BlockId>, i: nat, subsidy: u64)
    requires i < |order| && order[i] in nodes
    ensures var run, u := RunOver(nodes, order[..i], subsidy), Fold(nodes, order[..i], map[], subsidy);
            var payload := nodes[order[i]].block.payload;
            && run.utxo == u
            && RunOver(nodes, order[..i + 1], subsidy) ==
               match Objection(u, payload, subsidy)
               case None => LedgerRun(ApplyPayload(u, payload, subsidy), run.accepted + [order[i]], run.rejected)
               case Some(e) => LedgerRun(ApplyPayload(u, payload, subsidy), run.accepted,
                                         run.rejected + [(order[i], e)])
  {
    hide Objection, Applies, ApplyPayload;
    var front := order[..i + 1];
    assert front[..|front| - 1] == order[..i] && front[|front| - 1] == order[i];
  }

  lemma {:induction false} VerdictsFrom(nodes: Nodes, order: seq<BlockId>, subsidy: u64)
    ensures forall b :: b in AcceptedIn(nodes, order, subsidy) ==> b in order
    ensures forall v :: v in RejectedIn(nodes, order, subsidy) ==> v.0 in order
  {
    hide Applies, Objection, Fold;
    if order != [] {
      VerdictsFrom(nodes, order[..|order| - 1], subsidy);
    }
  }

  /** The run has recorded its verdict on `b`, and no other. */
  ghost predicate Turned(run: LedgerRun, b: BlockId, verdict: Option<LedgerError>) {
    && (b in run.accepted <==> verdict.None?)
    && forall e {:trigger (b, e) in run.rejected} :: (b, e) in run.rejected <==> verdict == Some(e)
  }

  lemma RunLonger(nodes: Nodes, init: seq<BlockId>, last: BlockId, subsidy: u64)
    requires last in nodes
    ensures var objection := Objection(Fold(nodes, init, map[], subsidy), nodes[last].block.payload, subsidy);
            var short, long := RunOver(nodes, init, subsidy), RunOver(nodes, init + [last], subsidy);
            && long.accepted == short.accepted + (if objection.None? then [last] else [])
            && long.rejected == short.rejected + (if objection.Some? then [(last, objection.value)] else [])
  {
    hide Objection, Fold, RunOver, ApplyPayload;
    assert (init + [last])[..|init|] == init && (init + [last])[..|init| + 1] == init + [last];
    RunStep(nodes, init + [last], |init|, subsidy);
  }

  lemma StillTurned(nodes: Nodes, init: seq<BlockId>, last: BlockId, b: BlockId, verdict: Option<LedgerError>,
                    subsidy: u64)
    requires last in nodes && b != last && Turned(RunOver(nodes, init, subsidy), b, verdict)
    ensures Turned(RunOver(nodes, init + [last], subsidy), b, verdict)
  {
    RunLonger(nodes, init, last, subsidy);
    hide Objection, RunOver, Fold;
  }

  lemma LastTurned(nodes: Nodes, init: seq<BlockId>, last: BlockId, subsidy: u64)
    requires last in nodes && last !in init
    ensures Turned(RunOver(nodes, init + [last], subsidy), last,
                   Objection(Fold(nodes, init, map[], subsidy), nodes[last].block.payload, subsidy))
  {
    RunVerdicts(nodes, init, subsidy);
    RunLonger(nodes, init, last, subsidy);
    hide Objection, Fold, RunOver;
  }

  lemma RunVerdicts(nodes: Nodes, order: seq<BlockId>, subsidy: u64)
    ensures forall b :: b in RunOver(nodes, order, subsidy).accepted ==> b in order
    ensures forall v :: v in RunOver(nodes, order, subsidy).rejected ==> v.0 in order
  {
    VerdictsFrom(nodes, order, subsidy);
  }

  /** The turn of each block in a run over different blocks: a payload that does not decode, or does
      not apply to the state so far, is recorded with its error and leaves that state alone; any
      other block is accepted, and the state becomes what its transactions make of it. */
  lemma {:induction false} EveryTurn(nodes: Nodes, order: seq<BlockId>, i: nat, subsidy: u64)
    requires i < |order| && Distinct(order) && forall b :: b in order ==> b in nodes
    ensures var run, before := RunOver(nodes, order, subsidy), RunOver(nodes, order[..i], subsidy).utxo;
            var decoded, after := TxsOf(nodes[order[i]].block.payload), RunOver(nodes, order[..i + 1], subsidy).utxo;
            && (decoded.Err? ==> Turned(run, order[i], Some(LedgerError.Payload(decoded.error))) && after == before)
            && (decoded.Ok? ==>
                  var outcome := BlockOutcome(before, decoded.value, subsidy);
                  && (outcome.Err? ==> Turned(run, order[i], Some(outcome.error)) && after == before)
                  && (outcome.Ok? ==> Turned(run, order[i], None) && after == outcome.value.utxo))
  {
    hide TxsOf, BlockOutcome, Fold, Turned;
    var init, last := order[..|order| - 1], order[|order| - 1];
    assert order == init + [last] && forall x :: x in init ==> x in order;
    if i < |init| {
      EveryTurn(nodes, init, i, subsidy);
      assert init[..i] == order[..i] && init[..i + 1] == order[..i + 1];
      var u, payload := Fold(nodes, order[..i], map[], subsidy), nodes[init[i]].block.payload;
      StillTurned(nodes, init, last, init[i], Objection(u, payload, subsidy), subsidy);
    } else {
      assert order[..i] == init && order[..i + 1] == order && last in order;
      BlockTurn(nodes, init, last, map[], subsidy);
      LastTurned(nodes, init, last, subsidy);
    }
  }

  lemma RunNone(nodes: Nodes, subsidy: u64)
    ensures RunOver(nodes, [], subsidy) == LedgerRun(map[], [], [])
  {
  }

  /** Apply a whole DAG from nothing, in linearized order. */
  method ApplyDag(dag: Dag, subsidy: u64) returns (run: LedgerRun)
    requires dag.Valid()
    ensures dag.nodes != map[] && Lineages(dag.nodes)
    ensures run == RunOver(dag.nodes, Linearization(dag.nodes, HeaviestBlock(dag.nodes)), subsidy)
  {
    hide *;
    dag.Unfolded();
    var order := dag.Linearize();
    LinearStored(dag.k, dag.genesis, dag.nodes, dag.tips);
    var utxo := new UtxoSet();
    var accepted: seq<BlockId>, rejected: seq<(BlockId, LedgerError)> := [], [];
    assert order[..0] == [];
    RunNone(dag.nodes, subsidy);
    for i := 0 to |order|
      invariant fresh(utxo)
      invariant LedgerRun(utxo.entries, accepted, rejected) == RunOver(dag.nodes, order[..i], subsidy)
    {
      var id := order[i];
      RunStep(dag.nodes, order, i, subsidy);
      var objection := ApplyPayloadTo(utxo, dag.nodes[id].block.payload, subsidy);
      if objection.None? {
        accepted := accepted + [id];
      } else {
        rejected := rejected + [(id, objection.value)];
      }
    }
    assert order[..|order|] == order;
    run := LedgerRun(utxo.entries, accepted, rejected);
  }

  lemma LinearStored(k: nat, genesis: BlockId, nodes: Nodes, tips: set<BlockId>)
    requires Consistent(k, genesis, nodes, tips) && Lineages(nodes) && nodes != map[]
    ensures forall b :: b in Linearization(nodes, HeaviestBlock(nodes)) ==> b in nodes
  {
    var order := Linearization(nodes, HeaviestBlock(nodes));
    LinearizationIsTopological(k, genesis, nodes, tips, HeaviestBlock(nodes));
    assert forall b :: b in order ==> b in Elements(order);
  }

  /** Over any run on a DAG, no more value exists than one subsidy for each accepted block. */
  lemma DagSupply(nodes: Nodes, order: seq<BlockId>, subsidy: u64)
    ensures Total(RunOver(nodes, order, subsidy).utxo) <= |RunOver(nodes, order, subsidy).accepted| * subsidy
  {
    SupplyBound(nodes, order, subsidy);
  }

  // ------------------------------------------------------------------
  // The incremental ledger

  datatype LedgerInsertError =
    | DagRefused(error: DagError)
    | StateInvalid(invalid: LedgerError)
    | FinalityViolation(parentScore: nat, finalityScore: nat)

  /** `StateMissing` is the one panic `insert` can run into: the state of a selected parent
      that may be built on is not stored. */
  datatype InsertOutcome = Inserted(id: BlockId) | Refused(error: LedgerInsertError) | StateMissing(parent: BlockId)

  /** What inserting `block` with transactions `txs` must come to. */
  ghost function OutcomeOf(nodes: Nodes, rules: Rules, subsidy: u64, depth: nat, stored: set<BlockId>, block: Block,
                           txs: seq<Transaction>): (r: InsertOutcome)
    requires Lineages(nodes) && nodes != map[]
    ensures r.Inserted? ==> StructureRefusal(nodes, block).None?
  {
    match StructureRefusal(nodes, block)
    case Some(e) => Refused(DagRefused(e))
    case None =>
      var sp := HeaviestOf(nodes, block.parents);
      if Score(nodes, sp) < FinalityOf(nodes, depth)
      then Refused(FinalityViolation(Score(nodes, sp), FinalityOf(nodes, depth)))
      else if sp !in stored then StateMissing(sp)
      else match BlockOutcome(PreState(nodes, block.parents, sp, subsidy), txs, subsidy)
           case Err(e) => Refused(StateInvalid(e))
           case Ok(_) => match Refusal(nodes, rules, block)
                         case Some(e) => Refused(DagRefused(e))
                         case None => Inserted(Id(block))
  }

  ghost predicate StateRight(nodes: Nodes, states: map<BlockId, Utxo>, subsidy: u64, b: BlockId)
    requires Lineages(nodes)
  {
    b in nodes && b in states && states[b] == ViewOf(nodes, b, subsidy)
  }

  /** Every stored state is the state in that block's own view. */
  ghost predicate StatesRight(nodes: Nodes, states: map<BlockId, Utxo>, subsidy: u64)
    requires Lineages(nodes)
  {
    forall b {:trigger StateRight(nodes, states, subsidy, b)} :: b in states ==> StateRight(nodes, states, subsidy, b)
  }

  lemma StateAt(nodes: Nodes, states: map<BlockId, Utxo>, subsidy: u64, b: BlockId)
    requires Lineages(nodes) && StatesRight(nodes, states, subsidy) && b in states
    ensures b in nodes && states[b] == ViewOf(nodes, b, subsidy)
  {
    assert StateRight(nodes, states, subsidy, b);
  }

  /** An accepted block's view: its transactions applied to the state it was checked on. */
  lemma NewView(k: nat, genesis: BlockId, nodes: Nodes, tips: set<BlockId>, block: Block, txs: seq<Transaction>,
                subsidy: u64)
    requires Consistent(k, genesis, nodes, tips) && Lineages(nodes) && StructureRefusal(nodes, block).None?
    requires TxsOf(block.payload) == Ok(txs)
    requires Lineages(WithBlock(nodes, k, block))
    ensures var nodes', id := WithBlock(nodes, k, block), Id(block);
            var sp := HeaviestOf(nodes, block.parents);
            && id in nodes' && PreView(nodes', id, subsidy) == PreState(nodes, block.parents, sp, subsidy)
            && (BlockOutcome(PreView(nodes', id, subsidy), txs, subsidy).Ok? ==>
                  && ValidInView(nodes', id, subsidy)
                  && ViewOf(nodes', id, subsidy) == BlockOutcome(PreView(nodes', id, subsidy), txs, subsidy).value.utxo)
  {
    var nodes', id, ps := WithBlock(nodes, k, block), Id(block), block.parents;
    var sp := HeaviestOf(nodes, ps);
    hide *;
    NewNode(nodes, k, block);
    ParentsStored(nodes, ps);
    SomeParent(nodes, k, ps, sp);
    WithBlockExtends(nodes, k, block);
    SoundGraph(k, genesis, nodes, tips);
    ExtendAgrees(nodes, nodes', id);
    ViewSteps(nodes', id, subsidy);
    SamePreState(k, genesis, nodes, tips, nodes', nodes.Keys, ps, sp, subsidy);
    AppliedInView(nodes', id, txs, subsidy);
  }
  lemma SoundGraph(k: nat, genesis: BlockId, nodes: Nodes, tips: set<BlockId>)
    requires Consistent(k, genesis, nodes, tips)
    ensures WellFormed(GraphOf(nodes)) && genesis in nodes && nodes != map[]
  {
  }

  lemma AppliedInView(nodes: Nodes, b: BlockId, txs: seq<Transaction>, subsidy: u64)
    requires Lineages(nodes) && b in nodes && TxsOf(nodes[b].block.payload) == Ok(txs)
    ensures BlockOutcome(PreView(nodes, b, subsidy), txs, subsidy).Ok? <==> ValidInView(nodes, b, subsidy)
    ensures ValidInView(nodes, b, subsidy) ==>
              ViewOf(nodes, b, subsidy) == BlockOutcome(PreView(nodes, b, subsidy), txs, subsidy).value.utxo
  {
    hide PreView, ViewOf, BlockOutcome, TxsOf;
    ViewSteps(nodes, b, subsidy);
  }

  /** Adding a block changes no other view. */
  lemma OldView(k: nat, genesis: BlockId, nodes: Nodes, tips: set<BlockId>, block: Block, b: BlockId, subsidy: u64)
    requires && Consistent(k, genesis, nodes, tips) && Lineages(nodes) && StructureRefusal(nodes, block).None?
             && b in nodes
    requires Lineages(WithBlock(nodes, k, block))
    ensures b in WithBlock(nodes, k, block)
    ensures ViewOf(WithBlock(nodes, k, block), b, subsidy) == ViewOf(nodes, b, subsidy)
    ensures ValidInView(WithBlock(nodes, k, block), b, subsidy) <==> ValidInView(nodes, b, subsidy)
  {
    hide *;
    var nodes' := WithBlock(nodes, k, block);
    WithBlockExtends(nodes, k, block);
    SoundGraph(k, genesis, nodes, tips);
    ExtendAgrees(nodes, nodes', Id(block));
    ScoreKept(nodes, k, block, b);
    SameView(k, genesis, nodes, tips, nodes', nodes.Keys, b, subsidy);
    ValidityOf(nodes, b, subsidy);
    ValidityOf(nodes', b, subsidy);
  }

  lemma ValidityOf(nodes: Nodes, b: BlockId, subsidy: u64)
    requires Lineages(nodes) && b in nodes
    ensures ValidInView(nodes, b, subsidy) <==> Applies(PreView(nodes, b, subsidy), nodes[b].block.payload, subsidy)
  {
  }

  /** Inserting a valid block keeps every stored state right and every block valid in its
      own view. */
  lemma ViewsKept(k: nat, genesis: BlockId, nodes: Nodes, tips: set<BlockId>, states: map<BlockId, Utxo>, block: Block,
                  txs: seq<Transaction>, subsidy: u64)
    requires Consistent(k, genesis, nodes, tips) && Lineages(nodes) && StructureRefusal(nodes, block).None?
    requires StatesRight(nodes, states, subsidy) && AllValidInView(nodes, subsidy)
    requires TxsOf(block.payload) == Ok(txs)
    requires BlockOutcome(PreState(nodes, block.parents, HeaviestOf(nodes, block.parents), subsidy), txs, subsidy).Ok?
    ensures var nodes', id := WithBlock(nodes, k, block), Id(block);
            var after := BlockOutcome(PreState(nodes, block.parents, HeaviestOf(nodes, block.parents), subsidy), txs,
                                      subsidy).value.utxo;
            && Lineages(nodes') && StatesRight(nodes', states[id := after], subsidy) && AllValidInView(nodes', subsidy)
  {
    hide *;
    ParentsStored(nodes, block.parents);
    var nodes', id := WithBlock(nodes, k, block), Id(block);
    var after := BlockOutcome(PreState(nodes, block.parents, HeaviestOf(nodes, block.parents), subsidy), txs,
                              subsidy).value.utxo;
    var states' := states[id := after];
    AcceptKeeps(k, genesis, nodes, tips, block);
    NewNode(nodes, k, block);
    NewView(k, genesis, nodes, tips, block, txs, subsidy);
    forall b | b in states' ensures StateRight(nodes', states', subsidy, b) {
      if b != id {
        StateAt(nodes, states, subsidy, b);
        OldView(k, genesis, nodes, tips, block, b, subsidy);
      }
      IsRight(nodes', states', subsidy, b);
    }
    forall b | b in nodes' ensures ValidInView(nodes', b, subsidy) {
      if b != id {
        OldView(k, genesis, nodes, tips, block, b, subsidy);
        ValidAt(nodes, subsidy, b);
      }
    }
    Collected(nodes', states', subsidy);
  }

  lemma IsRight(nodes: Nodes, states: map<BlockId, Utxo>, subsidy: u64, b: BlockId)
    requires Lineages(nodes) && b in nodes && b in states && states[b] == ViewOf(nodes, b, subsidy)
    ensures StateRight(nodes, states, subsidy, b)
  {
  }

  lemma ValidAt(nodes: Nodes, subsidy: u64, b: BlockId)
    requires Lineages(nodes) && AllValidInView(nodes, subsidy) && b in nodes
    ensures ValidInView(nodes, b, subsidy)
  {
  }

  lemma Collected(nodes: Nodes, states: map<BlockId, Utxo>, subsidy: u64)
    requires Lineages(nodes)
    requires forall b {:trigger StateRight(nodes, states, subsidy, b)} ::
               b in states ==> StateRight(nodes, states, subsidy, b)
    requires forall b {:trigger ValidInView(nodes, b, subsidy)} :: b in nodes ==> ValidInView(nodes, b, subsidy)
    ensures StatesRight(nodes, states, subsidy) && AllValidInView(nodes, subsidy)
  {
  }

  /** A block as its constructor leaves it. */
  ghost predicate WellMade(nodes: Nodes, b: BlockId) {
    b in nodes && Ascending(nodes[b].block.parents)
  }

  /** The genesis is the one a ledger builds, and every block keeps its parents sorted. */
  ghost predicate Formed(nodes: Nodes, genesis: BlockId) {
    && genesis in nodes && nodes[genesis].block == GenesisWith(nodes[genesis].block.payload)
    && forall b {:trigger WellMade(nodes, b)} :: b in nodes ==> WellMade(nodes, b)
  }

  /** Equal work for every block but the genesis. */
  ghost predicate Uniform(nodes: Nodes, genesis: BlockId) {
    exists w: nat :: UniformWork(nodes, genesis, w)
  }

  lemma FinalityIs(nodes: Nodes, depth: nat)
    requires nodes != map[]
    ensures var tipScore := nodes[HeaviestBlock(nodes)].ghostdag.blueScore;
            FinalityOf(nodes, depth) == if depth == U64_MAX || tipScore < depth then 0 else tipScore - depth
  {
    hide IsHeaviest;
  }

  lemma KeptSpelledOut(nodes: Nodes, stored: set<BlockId>, depth: nat)
    requires nodes != map[] && stored <= nodes.Keys
    ensures forall b :: b in Unpruned(nodes, stored, depth) <==>
              && b in stored && b in nodes
              && (|| depth == U64_MAX
                  || nodes[b].ghostdag.blueScore + depth >= nodes[HeaviestBlock(nodes)].ghostdag.blueScore)
  {
    hide IsHeaviest;
  }

  lemma StoredOrNew(nodes: Nodes, k: nat, block: Block, stored: set<BlockId>)
    requires StructureRefusal(nodes, block).None? && stored <= nodes.Keys
    ensures stored + {Id(block)} <= WithBlock(nodes, k, block).Keys
  {
    hide Id, Derive, IsHeaviest;
  }

  /** What inserting a block comes to, spelled out: the structural checks; then whether the selected
      parent lies more than the depth below the selected tip; then whether its state is there; then
      the transactions, on that state and the merged blocks; and only then the other rules. */
  lemma OutcomeSpelledOut(nodes: Nodes, rules: Rules, subsidy: u64, depth: nat, stored: set<BlockId>, block: Block,
                          txs: seq<Transaction>)
    requires Lineages(nodes) && nodes != map[]
    ensures var outcome := OutcomeOf(nodes, rules, subsidy, depth, stored, block, txs);
            && (StructureRefusal(nodes, block).Some? ==>
                  outcome == Refused(DagRefused(StructureRefusal(nodes, block).value)))
            && (StructureRefusal(nodes, block).None? ==>
                  var sp, tip := HeaviestOf(nodes, block.parents), HeaviestBlock(nodes);
                  var score, tipScore := nodes[sp].ghostdag.blueScore, nodes[tip].ghostdag.blueScore;
                  var applied := BlockOutcome(PreState(nodes, block.parents, sp, subsidy), txs, subsidy);
                  if depth != U64_MAX && score + depth < tipScore
                  then outcome == Refused(FinalityViolation(score, tipScore - depth))
                  else if sp !in stored then outcome == StateMissing(sp)
                  else if applied.Err? then outcome == Refused(StateInvalid(applied.error))
                  else if Refusal(nodes, rules, block).Some?
                  then outcome == Refused(DagRefused(Refusal(nodes, rules, block).value))
                  else outcome == Inserted(Id(block)))
  {
    hide Id, Refusal, BlockOutcome, PreState, IsHeaviest, FirstMissing;
  }

  class Ledger {
    const dag: Dag
    const subsidy: u64
    const genesis: BlockId
    var finalityDepth: nat
    /** The view state of every block that has not been pruned. */
    var states: map<BlockId, Utxo>

    ghost predicate Valid()
      reads this`states, dag`nodes, dag`tips, dag.reach
    {
      && dag.Valid() && dag.genesis == genesis && dag.nodes != map[]
      && StatesRight(dag.nodes, states, subsidy) && AllValidInView(dag.nodes, subsidy)
      && HeaviestBlock(dag.nodes) in states && Formed(dag.nodes, genesis)
    }

    /** Every block that may still be built on has its state stored. */
    ghost predicate AllRetained()
      requires dag.nodes != map[]
      reads this`states, this`finalityDepth, dag`nodes
    {
      Retained(dag.nodes, states.Keys, finalityDepth)
    }

    lemma Opened()
      requires Valid()
      ensures dag.Valid() && dag.genesis == genesis && dag.nodes != map[] && Lineages(dag.nodes)
      ensures Consistent(dag.k, genesis, dag.nodes, dag.tips)
      ensures StatesRight(dag.nodes, states, subsidy) && AllValidInView(dag.nodes, subsidy)
      ensures HeaviestBlock(dag.nodes) in states && states.Keys <= dag.nodes.Keys && Formed(dag.nodes, genesis)
    {
      forall b | b in states ensures b in dag.nodes {
        StateAt(dag.nodes, states, subsidy, b);
      }
    }

    lemma RetainedNow()
      requires dag.nodes != map[]
      ensures AllRetained() <==> Retained(dag.nodes, states.Keys, finalityDepth)
    {
    }

    lemma Closed()
      requires dag.Valid() && dag.genesis == genesis && dag.nodes != map[] && Lineages(dag.nodes)
      requires StatesRight(dag.nodes, states, subsidy) && AllValidInView(dag.nodes, subsidy)
      requires HeaviestBlock(dag.nodes) in states && Formed(dag.nodes, genesis)
      ensures Valid()
    {
    }

    /** A ledger on a genesis block whose payload applies to the empty set. */
    constructor (k: nat, subsidy: u64, block: Block, state: Utxo, validator: Validator, finalityDepth: nat)
      requires Applies(map[], block.payload, subsidy) && state == ApplyPayload(map[], block.payload, subsidy)
      requires block == GenesisWith(block.payload)
      ensures Valid() && fresh(dag) && fresh(dag.reach)
      ensures dag.k == k && this.subsidy == subsidy && genesis == Id(block) && this.finalityDepth == finalityDepth
      ensures State(dag.nodes, dag.tips) == Start(block) && dag.CurrentRules() == Rules(Some(validator), None, false)
      ensures states == map[Id(block) := state]
    {
      hide *;
      var d := new Dag(k, block);
      d.RulesNow();
      d.validator := Some(validator);
      d.RulesNow();
      d.Unfolded();
      dag := d;
      this.subsidy := subsidy;
      genesis := Id(block);
      this.finalityDepth := finalityDepth;
      states := map[Id(block) := state];
      new;
      StartConsistent(k, block);
      StartState(k, block, state, subsidy);
      Closed();
    }

    /** The blue score below which blocks are final. */
    method FinalityScore() returns (score: nat)
      requires dag.Valid() && dag.nodes != map[]
      ensures score == FinalityOf(dag.nodes, finalityDepth)
      // The selected tip's blue score less the depth, down to zero; zero if finality is off.
      ensures var tip := HeaviestBlock(dag.nodes);
              var tipScore := dag.nodes[tip].ghostdag.blueScore;
              score == if finalityDepth == U64_MAX || tipScore < finalityDepth then 0 else tipScore - finalityDepth
    {
      hide *;
      FinalityIs(dag.nodes, finalityDepth);
      if finalityDepth == U64_MAX {
        return 0;
      }
      var tip := dag.SelectedTip();
      var tipScore := dag.nodes[tip].ghostdag.blueScore;
      score := if tipScore < finalityDepth then 0 else tipScore - finalityDepth;
    }

    /** Drop the stored state of every block that is now final. */
    method Prune()
      requires dag.Valid() && dag.genesis == genesis && dag.nodes != map[] && states.Keys <= dag.nodes.Keys
      modifies this`states
      ensures states == map b | b in Unpruned(dag.nodes, old(states.Keys), finalityDepth) :: old(states)[b]
      // What is kept is what lies at most the depth below the selected tip, unchanged.
      ensures forall b :: b in states <==>
                && b in old(states) && b in dag.nodes
                && (|| finalityDepth == U64_MAX
                    || dag.nodes[b].ghostdag.blueScore + finalityDepth
                       >= dag.nodes[HeaviestBlock(dag.nodes)].ghostdag.blueScore)
      ensures forall b :: b in states ==> states[b] == old(states)[b]
    {
      hide *;
      var threshold := FinalityScore();
      UnprunedAll(dag.nodes, states.Keys, finalityDepth);
      KeptSpelledOut(dag.nodes, states.Keys, finalityDepth);
      if threshold == 0 {
        SameStates(states, Unpruned(dag.nodes, states.Keys, finalityDepth));
        return;
      }
      ghost var before := states;
      var rest := states.Keys;
      while rest != {}
        invariant rest <= before.Keys
        invariant forall b ::
                    b in states <==> b in before && (b in rest || b in Unpruned(dag.nodes, before.Keys, finalityDepth))
        invariant forall b :: b in states ==> states[b] == before[b]
        decreases rest
      {
        var id :| id in rest;
        rest := rest - {id};
        UnprunedAt(dag.nodes, before.Keys, finalityDepth, id);
        if dag.nodes[id].ghostdag.blueScore < threshold {
          states := states - {id};
        }
      }
      UnprunedSubset(dag.nodes, before.Keys, finalityDepth);
      SameEntries(states, before, Unpruned(dag.nodes, before.Keys, finalityDepth));
    }

    /** Apply merged blocks in order; one that conflicts simply has no effect. */
    method ApplyMerged(state: UtxoSet, mergeset: seq<BlockId>)
      requires forall b :: b in mergeset ==> b in dag.nodes
      modifies state
      ensures state.entries == Fold(dag.nodes, mergeset, old(state.entries), subsidy)
    {
      hide *;
      ghost var start := state.entries;
      assert mergeset[..0] == [];
      NothingFolded(dag.nodes, start, subsidy);
      for i := 0 to |mergeset|
        invariant state.entries == Fold(dag.nodes, mergeset[..i], start, subsidy)
      {
        assert mergeset[i] in mergeset;
        PayloadHere(dag.nodes, mergeset[i]);
        var objection := ApplyPayloadTo(state, dag.nodes[mergeset[i]].block.payload, subsidy);
        assert mergeset[..i + 1] == mergeset[..i] + [mergeset[i]];
        FoldSnoc(dag.nodes, mergeset[..i], mergeset[i], start, subsidy);
      }
      assert mergeset[..|mergeset|] == mergeset;
    }

    /** Check a block against its view: the state it leads to, or why it goes no further. */
    method Prepare(block: Block, txs: seq<Transaction>) returns (r: Result<Utxo, InsertOutcome>)
      requires Valid()
      ensures dag.nodes != map[] && Lineages(dag.nodes)
      ensures r.Err? ==>
                && !r.error.Inserted?
                && forall rules
                     {:trigger OutcomeOf(dag.nodes, rules, subsidy, finalityDepth, states.Keys, block, txs)} ::
                     r.error == OutcomeOf(dag.nodes, rules, subsidy, finalityDepth, states.Keys, block, txs)
      ensures r.Ok? ==> Passes(dag.nodes, subsidy, finalityDepth, states.Keys, block, txs)
                        && r.value == AfterState(dag.nodes, subsidy, block, txs)
    {
      hide *;
      Opened();
      OutcomeSteps(dag.nodes, subsidy, finalityDepth, states.Keys, block, txs);
      var preview := dag.Preview(block);
      if preview.Err? {
        return Err(Refused(DagRefused(preview.error)));
      }
      var sp := preview.value.selectedParent;
      ParentsStored(dag.nodes, block.parents);
      var parentScore := dag.nodes[sp].ghostdag.blueScore;
      ScoreIs(dag.nodes, sp);
      var finalityScore := FinalityScore();
      if parentScore < finalityScore {
        return Err(Refused(FinalityViolation(parentScore, finalityScore)));
      }
      if sp !in states {
        return Err(StateMissing(sp));
      }
      StateAt(dag.nodes, states, subsidy, sp);
      MergeStored(dag.nodes, block.parents, sp);
      var state := new UtxoSet.Clone(states[sp]);
      ApplyMerged(state, preview.value.mergeset);
      PreStateIs(dag.nodes, block.parents, sp, subsidy);
      var own := ApplyBlock(state, txs, subsidy);
      if own.Err? {
        return Err(Refused(StateInvalid(own.error)));
      }
      r := Ok(state.entries);
    }

    /** Add a checked block to the DAG, store its state, and prune. */
    method Commit(block: Block, txs: seq<Transaction>, after: Utxo) returns (r: Result<BlockId, DagError>)
      requires Valid() && |dag.nodes| < ROOT_CAPACITY && TxsOf(block.payload) == Ok(txs)
      requires dag.nodes != map[] && Lineages(dag.nodes)
      requires Ascending(block.parents)
      requires && Passes(dag.nodes, subsidy, finalityDepth, states.Keys, block, txs)
               && after == AfterState(dag.nodes, subsidy, block, txs)
      modifies this`states, dag`nodes, dag`tips, dag.reach
      ensures Valid() && dag.CurrentRules() == old(dag.CurrentRules())
      ensures r ==
              match Refusal(old(dag.nodes), dag.CurrentRules(), block) case Some(e) => Err(e) case None => Ok(Id(block))
      ensures r.Err? ==> dag.nodes == old(dag.nodes) && dag.tips == old(dag.tips) && states == old(states)
      ensures r.Ok? ==>
                && dag.nodes == WithBlock(old(dag.nodes), dag.k, block) && dag.tips == WithTip(old(dag.tips), block)
                        && dag.nodes != map[]
                        && states.Keys == Unpruned(dag.nodes, old(states.Keys) + {r.value}, finalityDepth)
    {
      hide *;
      Opened();
      dag.RulesNow();
      ghost var nodes0, tips0, states0 := dag.nodes, dag.tips, states;
      PassesMeans(nodes0, subsidy, finalityDepth, states.Keys, block, txs);
      InsertUnfold(dag.k, dag.CurrentRules(), State(nodes0, tips0), block);
      var inserted := dag.Insert(block);
      dag.RulesNow();
      if inserted.Err? {
        Closed();
        return Err(inserted.error);
      }
      var id := inserted.value;
      ViewsKept(dag.k, genesis, nodes0, tips0, states, block, txs, subsidy);
      dag.Unfolded();
      TipStateKept(dag.k, genesis, nodes0, tips0, block, states.Keys, finalityDepth);
      states := states[id := after];
      assert states.Keys == states0.Keys + {id};
      NewKeys(nodes0, dag.k, block, states0.Keys);
      StillFormed(nodes0, dag.k, genesis, block);
      ghost var states1 := states;
      UnprunedSubset(dag.nodes, states1.Keys, finalityDepth);
      Prune();
      PrunedRight(dag.nodes, states1, states, Unpruned(dag.nodes, states1.Keys, finalityDepth), subsidy);
      UnprunedSubset(dag.nodes, states1.Keys, finalityDepth);
      Closed();
      r := Ok(id);
    }

    /** Insert a block of transactions built on `parents`. */
    method Insert(parents: seq<BlockId>, work: u128, timestamp: u64, nonce: u64, txs: seq<Transaction>)
      returns (r: InsertOutcome)
      requires Valid() && |dag.nodes| < ROOT_CAPACITY && AllEncodable(txs)
      modifies this`states, dag`nodes, dag`tips, dag.reach
      ensures Valid()
      ensures old(dag.nodes) != map[] && Lineages(old(dag.nodes))
      ensures r == OutcomeOf(old(dag.nodes), dag.CurrentRules(), subsidy, finalityDepth, old(states.Keys),
                             MakeBlock(parents, work, timestamp, nonce, EncodePayload(txs)), txs)
      ensures !r.Inserted? ==> dag.nodes == old(dag.nodes) && dag.tips == old(dag.tips) && states == old(states)
      ensures r.Inserted? ==>
                var block := MakeBlock(parents, work, timestamp, nonce, EncodePayload(txs));
                && StructureRefusal(old(dag.nodes), block).None?
                && dag.nodes == WithBlock(old(dag.nodes), dag.k, block) && dag.tips == WithTip(old(dag.tips), block)
                && dag.nodes != map[] && r.id == Id(block)
                && states.Keys == Unpruned(dag.nodes, old(states.Keys) + {r.id}, finalityDepth)
      // Of the states stored and the new one, those at most the depth below the selected tip stay.
      ensures r.Inserted? ==>
                && dag.nodes != map[]
                && forall b :: b in states <==>
                     && (b in old(states) || b == r.id) && b in dag.nodes
                     && (|| finalityDepth == U64_MAX
                         || dag.nodes[b].ghostdag.blueScore + finalityDepth
                            >= dag.nodes[HeaviestBlock(dag.nodes)].ghostdag.blueScore)
      ensures r.StateMissing? <==>
                var block := MakeBlock(parents, work, timestamp, nonce, EncodePayload(txs));
                && StructureRefusal(old(dag.nodes), block).None?
                && Score(old(dag.nodes),
                         HeaviestOf(old(dag.nodes), block.parents)) >= FinalityOf(old(dag.nodes), finalityDepth)
                && HeaviestOf(old(dag.nodes), block.parents) !in old(states.Keys)
      ensures old(AllRetained()) ==> !r.StateMissing?
      ensures old(AllRetained()) && (finalityDepth == U64_MAX || Uniform(dag.nodes, genesis)) ==>
                dag.nodes != map[] && AllRetained()
    {
      hide *;
      Opened();
      RetainedNow();
      ghost var tips0, stored0 := dag.tips, states.Keys;
      var payload := EncodeBlockPayload(txs);
      var block := MakeBlock(parents, work, timestamp, nonce, payload);
      PayloadRoundTrip(txs);
      BlockMade(parents, work, timestamp, nonce, payload);
      ghost var nodes0 := dag.nodes;
      dag.RulesNow();
      OutcomeSteps(dag.nodes, subsidy, finalityDepth, states.Keys, block, txs);
      MissesIff(dag.nodes, dag.CurrentRules(), subsidy, finalityDepth, states.Keys, block, txs);
      var prepared := Prepare(block, txs);
      if prepared.Err? {
        RetainedNeverMissing(nodes0, dag.CurrentRules(), subsidy, finalityDepth, stored0, block, txs);
        return prepared.error;
      }
      PassedOutcome(nodes0, dag.CurrentRules(), subsidy, finalityDepth, states.Keys, block, txs);
      var id := Commit(block, txs, prepared.value);
      dag.RulesNow();
      RetainedNow();
      if id.Err? {
        return Refused(DagRefused(id.error));
      }
      InsertRetains(dag.k, genesis, nodes0, tips0, block, stored0, finalityDepth);
      Opened();
      StoredOrNew(nodes0, dag.k, block, stored0);
      KeptSpelledOut(dag.nodes, stored0 + {id.value}, finalityDepth);
      r := Inserted(id.value);
    }

    /** The full current state: the selected tip's view, then the side blocks after it. */
    method LedgerState() returns (utxo: Utxo)
      requires Valid()
      ensures dag.nodes != map[] && Lineages(dag.nodes)
      ensures utxo == RunOver(dag.nodes, Linearization(dag.nodes, HeaviestBlock(dag.nodes)), subsidy).utxo
    {
      hide *;
      Opened();
      var order := dag.Linearize();
      var selectedTip := dag.SelectedTip();
      LinearStored(dag.k, genesis, dag.nodes, dag.tips);
      StateAt(dag.nodes, states, subsidy, selectedTip);
      ghost var at := TipPosition(dag.k, genesis, dag.nodes, dag.tips, selectedTip, subsidy);
      var tipPos := 0;
      while order[tipPos] != selectedTip
        invariant tipPos <= at < |order|
        decreases at - tipPos
      {
        tipPos := tipPos + 1;
      }
      var state := new UtxoSet.Clone(states[selectedTip]);
      assert forall b :: b in order[tipPos + 1..] ==> b in order;
      ApplyMerged(state, order[tipPos + 1..]);
      utxo := state.entries;
    }
  }

  /** Where the selected tip stands in the order: after its own order, before the side blocks. */
  lemma TipPosition(k: nat, genesis: BlockId, nodes: Nodes, tips: set<BlockId>, tip: BlockId, subsidy: u64)
    returns (at: nat)
    requires Consistent(k, genesis, nodes, tips) && Lineages(nodes) && nodes != map[] && tip == HeaviestBlock(nodes)
    ensures var order := Linearization(nodes, tip);
            && at < |order| && order[at] == tip && (forall i :: 0 <= i < |order| && order[i] == tip ==> i == at)
            && RunOver(nodes, order, subsidy).utxo == Fold(nodes, order[at + 1..], ViewOf(nodes, tip, subsidy), subsidy)
  {
    var order, mine := Linearization(nodes, tip), OrderOf(nodes, tip);
    LinearizationIsTopological(k, genesis, nodes, tips, tip);
    OrderEnds(nodes, tip);
    hide OrderOf, Consistent, Linearization, IsHeaviest;
    at := |mine| - 1;
    assert order[..|mine|] == mine && order[at] == mine[at];
    FoldAppend(nodes, mine, order[at + 1..], map[], subsidy);
    assert mine + order[at + 1..] == order;
  }

  /** The incremental state is the batch state, and the batch run accepts every block of the
      selected chain. */
  lemma ChainAccepted(nodes: Nodes, c: BlockId, subsidy: u64)
    requires && Lineages(nodes) && nodes != map[] && AllValidInView(nodes, subsidy)
             && c in ChainTo(nodes, HeaviestBlock(nodes))
    ensures c in RunOver(nodes, Linearization(nodes, HeaviestBlock(nodes)), subsidy).accepted
  {
    ChainIsAccepted(nodes, HeaviestBlock(nodes), c, subsidy);
  }

  // ------------------------------------------------------------------
  // When the lookup can miss

  /** The lookup misses exactly when the selected parent is not final and yet not stored. */
  lemma MissesIff(nodes: Nodes, rules: Rules, subsidy: u64, depth: nat, stored: set<BlockId>, block: Block,
                  txs: seq<Transaction>)
    requires Lineages(nodes) && nodes != map[]
    ensures OutcomeOf(nodes, rules, subsidy, depth, stored, block, txs).StateMissing? <==>
              && StructureRefusal(nodes, block).None?
              && Score(nodes, HeaviestOf(nodes, block.parents)) >= FinalityOf(nodes, depth)
              && HeaviestOf(nodes, block.parents) !in stored
  {
    hide StructureRefusal, FinalityOf, Score, BlockOutcome, PreState, Refusal, IsHeaviest;
  }

  lemma RetainedNeverMissing(nodes: Nodes, rules: Rules, subsidy: u64, depth: nat, stored: set<BlockId>, block: Block,
                             txs: seq<Transaction>)
    requires Lineages(nodes) && nodes != map[]
    ensures Retained(nodes, stored, depth) ==>
              !OutcomeOf(nodes, rules, subsidy, depth, stored, block, txs).StateMissing?
  {
    MissesIff(nodes, rules, subsidy, depth, stored, block, txs);
    hide FinalityOf, Score, IsHeaviest, OutcomeOf;
  }

  /** With finality off, or with equal work throughout, an insert leaves every state that
      may still be needed in store. */
  lemma InsertRetains(k: nat, genesis: BlockId, nodes: Nodes, tips: set<BlockId>, block: Block, stored: set<BlockId>,
                      depth: nat)
    requires Consistent(k, genesis, nodes, tips) && StructureRefusal(nodes, block).None?
    requires nodes != map[] && WithBlock(nodes, k, block) != map[]
    ensures Retained(nodes, stored, depth) && (depth == U64_MAX || Uniform(WithBlock(nodes, k, block), genesis)) ==>
              Retained(WithBlock(nodes, k, block), Unpruned(WithBlock(nodes, k, block), stored + {Id(block)}, depth),
                       depth)
  {
    if Retained(nodes, stored, depth) && (depth == U64_MAX || Uniform(WithBlock(nodes, k, block), genesis)) {
      if depth != U64_MAX {
        var w: nat :| UniformWork(WithBlock(nodes, k, block), genesis, w);
        UniformFinalityRises(k, genesis, nodes, tips, block, depth, w);
      } else {
        NoFinality(nodes);
        NoFinality(WithBlock(nodes, k, block));
      }
      hide *;
      RetainedStep(k, nodes, block, stored, depth);
    }
  }

  lemma NoFinality(nodes: Nodes)
    requires nodes != map[]
    ensures FinalityOf(nodes, U64_MAX) == 0
  {
  }

  /** The rules of a ledger as created: the structural validator, or none, and nothing else. */
  ghost predicate Plain(rules: Rules) {
    rules.difficulty.None? && !rules.requirePow && (rules.validator.Some? ==> Structural(rules.validator.value))
  }

  /** The ledger inserts `block`, carrying no transactions, at stage `s`. */
  ghost predicate Enters(rules: Rules, subsidy: u64, depth: nat, s: Stage, block: Block) {
    && Lineages(s.st.nodes) && s.st.nodes != map[]
    && OutcomeOf(s.st.nodes, rules, subsidy, depth, s.stored, block, []) == Inserted(Id(block))
  }

  lemma NothingApplies(u: Utxo, subsidy: u64)
    ensures BlockOutcome(u, [], subsidy).Ok? && AllEncodable([])
  {
  }

  /** A block without transactions enters on any stored block that is not final. */
  lemma EmptyBlockEnters(k: nat, genesis: BlockId, rules: Rules, subsidy: u64, depth: nat, s: Stage, block: Block,
                         p: BlockId)
    requires Consistent(k, genesis, s.st.nodes, s.st.tips) && Buildable(s, p, depth) && Plain(rules)
    requires block.parents == [p] && Id(block) !in s.st.nodes && block.payload == EncodePayload([])
    ensures Enters(rules, subsidy, depth, s, block)
  {
    var nodes := s.st.nodes;
    ConsistentLineages(k, genesis, nodes, s.st.tips);
    OnlyParent(nodes, block, p);
    LoneParent(nodes, p);
    var u := PreState(nodes, block.parents, p, subsidy);
    NothingApplies(u, subsidy);
    AppliedIsStructured(u, [], subsidy);
    PlainAccepts(nodes, rules, block);
    hide PreState, Id, StructureRefusal, Refusal, BlockOutcome, FinalityOf, Score, IsHeaviest, EncodePayload, PayloadOk,
         Plain;
    PassedOutcome(nodes, rules, subsidy, depth, s.stored, block, []);
  }

  lemma PlainAccepts(nodes: Nodes, rules: Rules, block: Block)
    requires Lineages(nodes) && StructureRefusal(nodes, block).None? && Plain(rules) && PayloadOk(block.payload)
    ensures Refusal(nodes, rules, block).None?
  {
    hide StructureRefusal, PayloadOk, Id;
    if rules.validator.Some? {
      assert rules.validator.value(block).None?;
    }
  }

  /** The run of `FinalityCanFall` on a ledger: a genesis without transactions and six blocks
      without transactions, each of which the ledger inserts. */
  lemma FinalityFallsInLedger(k: nat, rules: Rules, subsidy: u64, a1: Block, a2: Block, a3: Block, a4: Block, b: Block,
                              c: Block)
    requires Plain(rules) && forall x :: x in [a1, a2, a3, a4, b, c] ==> x.payload == EncodePayload([])
    requires a1.work == 1 && a2.work == 1 && a3.work == 1 && a4.work == 1 && b.work == 100 && c.work == 1
    requires && a1.parents == [Id(GenesisBlock([]))] && a2.parents == [Id(a1)] && a3.parents == [Id(a2)]
             && a4.parents == [Id(a3)]
    requires b.parents == [Id(a1)] && c.parents == [Id(b)]
    requires Distinct([Id(GenesisBlock([])), Id(a1), Id(a2), Id(a3), Id(a4), Id(b), Id(c)])
    ensures BlockOutcome(map[], [], subsidy).Ok?
    ensures var gen := GenesisBlock([]);
            var s0 := Stage(Start(gen), {Id(gen)});
            var s1 := Advance(k, 3, s0, a1);
            var s2 := Advance(k, 3, s1, a2);
            var s3 := Advance(k, 3, s2, a3);
            var s4 := Advance(k, 3, s3, a4);
            var s5 := Advance(k, 3, s4, b);
            var s6 := Advance(k, 3, s5, c);
            && Enters(rules, subsidy, 3, s0, a1) && Enters(rules, subsidy, 3, s1, a2)
            && Enters(rules, subsidy, 3, s2, a3)
            && Enters(rules, subsidy, 3, s3, a4) && Enters(rules, subsidy, 3, s4, b) && Enters(rules, subsidy, 3, s5, c)
            && s5.st.nodes != map[] && FinalityOf(s5.st.nodes, 3) == 1
            && s6.st.nodes != map[] && FinalityOf(s6.st.nodes, 3) == 0
            && Id(gen) in s6.st.nodes && Id(gen) !in s6.stored
  {
    hide *;
    var gen := GenesisBlock([]);
    GenesisParts([]);
    AllDifferent(Id(gen), Id(a1), Id(a2), Id(a3), Id(a4), Id(b), Id(c));
    NothingApplies(map[], subsidy);
    ChainOfFour(k, gen, a1, a2, a3, a4);
    FinalityCanFall(k, gen, a1, a2, a3, a4, b, c);
    var s0 := Stage(Start(gen), {Id(gen)});
    var s1 := Advance(k, 3, s0, a1);
    var s2 := Advance(k, 3, s1, a2);
    var s3 := Advance(k, 3, s2, a3);
    var s4 := Advance(k, 3, s3, a4);
    var s5 := Advance(k, 3, s4, b);
    EmptyBlockEnters(k, Id(gen), rules, subsidy, 3, s0, a1, Id(gen));
    EmptyBlockEnters(k, Id(gen), rules, subsidy, 3, s1, a2, Id(a1));
    EmptyBlockEnters(k, Id(gen), rules, subsidy, 3, s2, a3, Id(a2));
    EmptyBlockEnters(k, Id(gen), rules, subsidy, 3, s3, a4, Id(a3));
    EmptyBlockEnters(k, Id(gen), rules, subsidy, 3, s4, b, Id(a1));
    EmptyBlockEnters(k, Id(gen), rules, subsidy, 3, s5, c, Id(b));
  }

  lemma GenesisParts(txs: seq<Transaction>)
    ensures var gen := GenesisBlock(txs);
            gen.work == 1 && gen.parents == [] && gen.timestamp == 0 && gen.payload == EncodePayload(txs)
  {
  }

  /** After that run a further block on the genesis is not refused for finality, and finds no
      state: the lookup that the code takes for granted fails. */
  lemma LookupCanMiss(k: nat, rules: Rules, subsidy: u64, a1: Block, a2: Block, a3: Block, a4: Block, b: Block,
                      c: Block, d: Block, txs: seq<Transaction>)
    requires Plain(rules) && forall x :: x in [a1, a2, a3, a4, b, c] ==> x.payload == EncodePayload([])
    requires a1.work == 1 && a2.work == 1 && a3.work == 1 && a4.work == 1 && b.work == 100 && c.work == 1
    requires && a1.parents == [Id(GenesisBlock([]))] && a2.parents == [Id(a1)] && a3.parents == [Id(a2)]
             && a4.parents == [Id(a3)]
    requires b.parents == [Id(a1)] && c.parents == [Id(b)] && d.parents == [Id(GenesisBlock([]))]
    requires Distinct([Id(GenesisBlock([])), Id(a1), Id(a2), Id(a3), Id(a4), Id(b), Id(c)])
    requires Id(d) !in [Id(GenesisBlock([])), Id(a1), Id(a2), Id(a3), Id(a4), Id(b), Id(c)]
    ensures var gen := GenesisBlock([]);
            var s0 := Stage(Start(gen), {Id(gen)});
            var s1 := Advance(k, 3, s0, a1);
            var s2 := Advance(k, 3, s1, a2);
            var s3 := Advance(k, 3, s2, a3);
            var s4 := Advance(k, 3, s3, a4);
            var s5 := Advance(k, 3, s4, b);
            var s6 := Advance(k, 3, s5, c);
            && Enters(rules, subsidy, 3, s0, a1) && Enters(rules, subsidy, 3, s1, a2)
            && Enters(rules, subsidy, 3, s2, a3)
            && Enters(rules, subsidy, 3, s3, a4) && Enters(rules, subsidy, 3, s4, b) && Enters(rules, subsidy, 3, s5, c)
            && s6.st.nodes != map[] && Lineages(s6.st.nodes)
            && OutcomeOf(s6.st.nodes, rules, subsidy, 3, s6.stored, d, txs) == StateMissing(Id(gen))
  {
    hide *;
    var gen := GenesisBlock([]);
    GenesisParts([]);
    FinalityFallsInLedger(k, rules, subsidy, a1, a2, a3, a4, b, c);
    FinalityCanFall(k, gen, a1, a2, a3, a4, b, c);
    var s := Advance(k, 3, Advance(k, 3, Advance(k, 3, Advance(k, 3, Advance(k, 3, Advance(k, 3,
               Stage(Start(gen), {Id(gen)}), a1), a2), a3), a4), b), c);
    ConsistentLineages(k, Id(gen), s.st.nodes, s.st.tips);
    OnlyParent(s.st.nodes, d, Id(gen));
    LoneParent(s.st.nodes, Id(gen));
    OutcomeSteps(s.st.nodes, subsidy, 3, s.stored, d, txs);
    var outcome := OutcomeOf(s.st.nodes, rules, subsidy, 3, s.stored, d, txs);
  }

  /** What a block must satisfy to reach the DAG. */
  ghost predicate Passes(nodes: Nodes, subsidy: u64, depth: nat, stored: set<BlockId>, block: Block,
                         txs: seq<Transaction>)
    requires Lineages(nodes) && nodes != map[]
  {
    && StructureRefusal(nodes, block).None?
    && var sp := HeaviestOf(nodes, block.parents);
       && Score(nodes, sp) >= FinalityOf(nodes, depth) && sp in stored
       && BlockOutcome(PreState(nodes, block.parents, sp, subsidy), txs, subsidy).Ok?
  }

  /** The state in the view of a block that passes. */
  ghost function AfterState(nodes: Nodes, subsidy: u64, block: Block, txs: seq<Transaction>): Utxo
    requires Lineages(nodes) && StructureRefusal(nodes, block).None?
    requires BlockOutcome(PreState(nodes, block.parents, HeaviestOf(nodes, block.parents), subsidy), txs, subsidy).Ok?
  {
    BlockOutcome(PreState(nodes, block.parents, HeaviestOf(nodes, block.parents), subsidy), txs, subsidy).value.utxo
  }

  /** The order in which an insert is checked, whatever the DAG's own rules. */
  lemma OutcomeSteps(nodes: Nodes, subsidy: u64, depth: nat, stored: set<BlockId>, block: Block, txs: seq<Transaction>)
    requires Lineages(nodes) && nodes != map[]
    ensures forall rules {:trigger OutcomeOf(nodes, rules, subsidy, depth, stored, block, txs)} ::
              var outcome := OutcomeOf(nodes, rules, subsidy, depth, stored, block, txs);
              match StructureRefusal(nodes, block)
              case Some(e) => outcome == Refused(DagRefused(e))
              case None =>
                var sp := HeaviestOf(nodes, block.parents);
                if Score(nodes, sp) < FinalityOf(nodes, depth)
                then outcome == Refused(FinalityViolation(Score(nodes, sp), FinalityOf(nodes, depth)))
                else if sp !in stored then outcome == StateMissing(sp)
                else match BlockOutcome(PreState(nodes, block.parents, sp, subsidy), txs, subsidy)
                     case Err(e) => outcome == Refused(StateInvalid(e))
                     case Ok(_) => true
    ensures match StructureRefusal(nodes, block)
            case Some(_) => true
            case None =>
              var sp := HeaviestOf(nodes, block.parents);
              Score(nodes, sp) >= FinalityOf(nodes, depth) && sp in stored ==>
                match BlockOutcome(PreState(nodes, block.parents, sp, subsidy), txs, subsidy)
                case Err(_) => true
                case Ok(a) =>
                  && Passes(nodes, subsidy, depth, stored, block, txs)
                  && a.utxo == AfterState(nodes, subsidy, block, txs)
  {
    hide StructureRefusal, FinalityOf, Score, BlockOutcome, PreState, Refusal, IsHeaviest;
  }

  lemma PassedOutcome(nodes: Nodes, rules: Rules, subsidy: u64, depth: nat, stored: set<BlockId>, block: Block,
                      txs: seq<Transaction>)
    requires Lineages(nodes) && nodes != map[] && Passes(nodes, subsidy, depth, stored, block, txs)
    ensures StructureRefusal(nodes, block).None?
    ensures OutcomeOf(nodes, rules, subsidy, depth, stored, block, txs) ==
            match Refusal(nodes, rules, block) case Some(e) => Refused(DagRefused(e)) case None => Inserted(Id(block))
  {
    hide StructureRefusal, FinalityOf, Score, BlockOutcome, PreState, Refusal, IsHeaviest;
  }

  lemma PassesMeans(nodes: Nodes, subsidy: u64, depth: nat, stored: set<BlockId>, block: Block, txs: seq<Transaction>)
    requires Lineages(nodes) && nodes != map[] && Passes(nodes, subsidy, depth, stored, block, txs)
    ensures StructureRefusal(nodes, block).None?
    ensures BlockOutcome(PreState(nodes, block.parents, HeaviestOf(nodes, block.parents), subsidy), txs, subsidy).Ok?
    ensures AfterState(nodes, subsidy, block, txs) ==
            BlockOutcome(PreState(nodes, block.parents, HeaviestOf(nodes, block.parents), subsidy), txs,
                         subsidy).value.utxo
  {
    hide StructureRefusal, FinalityOf, Score, BlockOutcome, PreState, IsHeaviest;
  }

  lemma NothingFolded(nodes: Nodes, u: Utxo, subsidy: u64)
    ensures Fold(nodes, [], u, subsidy) == u
  {
  }

  lemma PayloadHere(nodes: Nodes, b: BlockId)
    requires b in nodes
    ensures PayloadAt(nodes, b) == nodes[b].block.payload
  {
  }

  lemma MergeStored(nodes: Nodes, ps: seq<BlockId>, sp: BlockId)
    ensures forall b :: b in MergeOrder(nodes, ps, sp) ==> b in nodes
  {
    MergeOrderFacts(nodes, ps, sp);
  }

  lemma PreStateIs(nodes: Nodes, ps: seq<BlockId>, sp: BlockId, subsidy: u64)
    requires sp in nodes && Lineages(nodes)
    ensures PreState(nodes, ps, sp, subsidy) ==
            Fold(nodes, MergeOrder(nodes, ps, sp), ViewOf(nodes, sp, subsidy), subsidy)
  {
  }

  lemma BlockMade(parents: seq<BlockId>, work: u128, timestamp: u64, nonce: u64, payload: Bytes)
    ensures var block := MakeBlock(parents, work, timestamp, nonce, payload);
            block.payload == payload && Ascending(block.parents)
  {
    SortIdsSorts(parents);
  }

  lemma StillFormed(nodes: Nodes, k: nat, genesis: BlockId, block: Block)
    requires StructureRefusal(nodes, block).None? && Formed(nodes, genesis) && Ascending(block.parents)
    ensures Formed(WithBlock(nodes, k, block), genesis)
  {
    hide WithBlock, Id, Derive, GraphOf, StructureRefusal, Ascending;
    NewNode(nodes, k, block);
    var nodes' := WithBlock(nodes, k, block);
    ScoreKept(nodes, k, block, genesis);
    forall b | b in nodes' ensures WellMade(nodes', b) {
      if b != Id(block) {
        ScoreKept(nodes, k, block, b);
        assert WellMade(nodes, b);
      }
    }
  }

  lemma NewKeys(nodes: Nodes, k: nat, block: Block, stored: set<BlockId>)
    requires StructureRefusal(nodes, block).None? && stored <= nodes.Keys
    ensures stored + {Id(block)} <= WithBlock(nodes, k, block).Keys
  {
    hide WithBlock, Id, Derive, GraphOf;
    NewNode(nodes, k, block);
  }

  lemma PrunedRight(nodes: Nodes, before: map<BlockId, Utxo>, after: map<BlockId, Utxo>, kept: set<BlockId>,
                    subsidy: u64)
    requires Lineages(nodes) && StatesRight(nodes, before, subsidy) && kept <= before.Keys
    requires after == map b | b in kept :: before[b]
    ensures StatesRight(nodes, after, subsidy) && after.Keys == kept
  {
    hide ViewOf;
    forall b | b in after ensures StateRight(nodes, after, subsidy, b) {
      assert StateRight(nodes, before, subsidy, b);
    }
  }

  lemma UnprunedSubset(nodes: Nodes, stored: set<BlockId>, depth: nat)
    requires nodes != map[]
    ensures Unpruned(nodes, stored, depth) <= stored
  {
  }

  /** The first state: the genesis block applied to nothing. */
  lemma StartState(k: nat, block: Block, state: Utxo, subsidy: u64)
    requires Applies(map[], block.payload, subsidy) && state == ApplyPayload(map[], block.payload, subsidy)
    ensures var nodes := Start(block).nodes;
            && nodes != map[] && Lineages(nodes) && HeaviestBlock(nodes) == Id(block)
            && StatesRight(nodes, map[Id(block) := state], subsidy) && AllValidInView(nodes, subsidy)
            && (block == GenesisWith(block.payload) ==> Formed(nodes, Id(block)))
  {
    hide Id, Applies, ApplyPayload, ViewOf, PreView;
    StartConsistent(k, block);
    var nodes, id := Start(block).nodes, Id(block);
    assert nodes.Keys == {id};
    hide Consistent;
    ViewSteps(nodes, id, subsidy);
    assert StateRight(nodes, map[id := state], subsidy, id);
    assert ValidInView(nodes, id, subsidy);
  }

  /** The validator a ledger installs: it passes exactly the well-structured payloads. */
  ghost predicate Structural(validator: Validator) {
    forall b {:trigger validator(b)} :: validator(b).None? <==> PayloadOk(b.payload)
  }

  /** Two ledgers holding the same blocks, whatever order they arrived in and however much each
      has pruned: the same DAG and tips, and the same state for every block both still store. */
  lemma LedgersConverge(a: Ledger, b: Ledger)
    requires a.Valid() && b.Valid() && a.dag.k == b.dag.k && a.genesis == b.genesis && a.subsidy == b.subsidy
    requires SameBlocks(a.dag.nodes, b.dag.nodes)
    ensures a.dag.nodes == b.dag.nodes && a.dag.tips == b.dag.tips
    ensures forall id :: id in a.states && id in b.states ==> a.states[id] == b.states[id]
  {
    hide *;
    a.Opened();
    b.Opened();
    Convergence(a.dag.k, a.genesis, a.dag.nodes, a.dag.tips, b.dag.nodes, b.dag.tips);
    forall id | id in a.states && id in b.states ensures a.states[id] == b.states[id] {
      StateAt(a.dag.nodes, a.states, a.subsidy, id);
      StateAt(b.dag.nodes, b.states, b.subsidy, id);
    }
  }

  /** Create a ledger whose genesis carries `genesisTxs`. */
  method NewLedger(k: nat, subsidy: u64, genesisTxs: seq<Transaction>, validator: Validator, finalityDepth: nat)
    returns (r: Result<Ledger, LedgerError>)
    requires AllEncodable(genesisTxs)
    ensures match BlockOutcome(map[], genesisTxs, subsidy)
            case Err(e) => r == Err(e)
            case Ok(a) =>
              var block := GenesisBlock(genesisTxs);
              && r.Ok? && fresh(r.value) && fresh(r.value.dag) && fresh(r.value.dag.reach) && r.value.Valid()
              && r.value.dag.k == k && r.value.subsidy == subsidy && r.value.genesis == Id(block)
              && r.value.finalityDepth == finalityDepth
              && State(r.value.dag.nodes, r.value.dag.tips) == Start(block)
              && r.value.dag.CurrentRules() == Rules(Some(validator), None, false)
              && r.value.states == map[Id(block) := a.utxo]
  {
    hide *;
    var state := new UtxoSet();
    var applied := ApplyBlock(state, genesisTxs, subsidy);
    if applied.Err? {
      return Err(applied.error);
    }
    PayloadRoundTrip(genesisTxs);
    var payload := EncodeBlockPayload(genesisTxs);
    var block := GenesisWith(payload);
    GenesisIs(genesisTxs);
    GenesisApplies(block, genesisTxs, subsidy);
    var ledger := new Ledger(k, subsidy, block, state.entries, validator, finalityDepth);
    r := Ok(ledger);
  }

  /** The genesis block a ledger builds: work one, time and nonce zero. */
  function GenesisWith(payload: Bytes): Block {
    Block([], 1, 0, 0, payload)
  }

  function GenesisBlock(txs: seq<Transaction>): Block {
    GenesisWith(EncodePayload(txs))
  }

  lemma GenesisIs(txs: seq<Transaction>)
    ensures GenesisBlock(txs) == GenesisWith(EncodePayload(txs)) && GenesisBlock(txs).payload == EncodePayload(txs)
  {
  }

  lemma GenesisApplies(block: Block, txs: seq<Transaction>, subsidy: u64)
    requires TxsOf(block.payload) == Ok(txs) && BlockOutcome(map[], txs, subsidy).Ok?
    ensures Applies(map[], block.payload, subsidy)
    ensures ApplyPayload(map[], block.payload, subsidy) == BlockOutcome(map[], txs, subsidy).value.utxo
  {
    hide BlockOutcome, TxsOf;
  }

  lemma UnprunedAll(nodes: Nodes, stored: set<BlockId>, depth: nat)
    requires nodes != map[]
    ensures FinalityOf(nodes, depth) == 0 ==> Unpruned(nodes, stored, depth) == stored
  {
    hide FinalityOf;
  }

  lemma UnprunedAt(nodes: Nodes, stored: set<BlockId>, depth: nat, b: BlockId)
    requires nodes != map[] && b in nodes && b in stored
    ensures b in Unpruned(nodes, stored, depth) <==> nodes[b].ghostdag.blueScore >= FinalityOf(nodes, depth)
  {
    hide FinalityOf;
  }

  lemma SameStates(states: map<BlockId, Utxo>, kept: set<BlockId>)
    requires kept == states.Keys
    ensures states == map b | b in kept :: states[b]
  {
  }

  lemma SameEntries(after: map<BlockId, Utxo>, before: map<BlockId, Utxo>, kept: set<BlockId>)
    requires kept <= before.Keys
    requires forall b :: b in after <==> b in kept
    requires forall b :: b in after ==> after[b] == before[b]
    ensures after == map b | b in kept :: before[b]
  {
  }
}
