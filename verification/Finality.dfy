/** The finality threshold, and which blocks keep a stored state. */
module Finality {
  import opened Types
  import opened Graphs
  import opened Blocks
  import opened Ghostdag
  import opened Consensus
  import opened ChainSelection
  import opened Acceptance
  import opened Dags

  ghost function Score(nodes: Nodes, b: BlockId): nat {
    if b in nodes then nodes[b].ghostdag.blueScore else 0
  }

  /** Blocks below this blue score are final. The largest word switches finality off. */
  ghost function FinalityOf(nodes: Nodes, depth: nat): nat
    requires nodes != map[]
  {
    if depth == U64_MAX then 0 else SatSub(Score(nodes, HeaviestBlock(nodes)), depth)
  }

  /** What pruning leaves of the stored states. */
  ghost function Unpruned(nodes: Nodes, stored: set<BlockId>, depth: nat): set<BlockId>
    requires nodes != map[]
  {
    set b | b in stored && Score(nodes, b) >= FinalityOf(nodes, depth)
  }

  /** Every block that may still be built on has its state stored. */
  ghost predicate Retained(nodes: Nodes, stored: set<BlockId>, depth: nat)
    requires nodes != map[]
  {
    forall b {:trigger Score(nodes, b)} {:trigger b in stored} ::
      b in nodes && Score(nodes, b) >= FinalityOf(nodes, depth) ==> b in stored
  }

  /** Adding a block keeps the heaviest block or moves it to the new one. */
  lemma HeaviestStep(k: nat, genesis: BlockId, nodes: Nodes, tips: set<BlockId>, block: Block)
    requires Consistent(k, genesis, nodes, tips) && StructureRefusal(nodes, block).None?
    ensures var nodes', id := WithBlock(nodes, k, block), Id(block);
            && nodes != map[] && nodes' != map[] && id in nodes' && id !in nodes && nodes'.Keys == nodes.Keys + {id}
            && var tip := HeaviestBlock(nodes);
               HeaviestBlock(nodes') == if KeyLess(ChainKey(nodes, tip), ChainKey(nodes', id)) then id else tip
  {
    var nodes', id := WithBlock(nodes, k, block), Id(block);
    NewNode(nodes, k, block);
    WithBlockExtends(nodes, k, block);
    assert genesis in nodes;
    hide Consistent, WithBlock, Id, StructureRefusal, Derive, GraphOf, IsHeaviest;
    HeaviestStepFrom(nodes, nodes', id);
  }

  lemma HeaviestStepFrom(nodes: Nodes, nodes': Nodes, id: BlockId)
    requires nodes != map[] && Extends(nodes, nodes', id)
    ensures nodes' != map[]
    ensures var tip := HeaviestBlock(nodes);
            HeaviestBlock(nodes') == if KeyLess(ChainKey(nodes, tip), ChainKey(nodes', id)) then id else tip
  {
    assert id in nodes';
    var tip, tip' := HeaviestBlock(nodes), HeaviestBlock(nodes');
    assert SameEntry(nodes, nodes', tip);
    assert Heavier(nodes', tip', tip) && Heavier(nodes', tip', id);
    if tip' != id {
      assert SameEntry(nodes, nodes', tip') && Heavier(nodes, tip, tip');
    }
  }

  lemma ScoreKept(nodes: Nodes, k: nat, block: Block, b: BlockId)
    requires StructureRefusal(nodes, block).None? && b in nodes
    ensures b in WithBlock(nodes, k, block) && Score(WithBlock(nodes, k, block), b) == Score(nodes, b)
    ensures ChainKey(WithBlock(nodes, k, block), b) == ChainKey(nodes, b)
    ensures WithBlock(nodes, k, block)[b].block == nodes[b].block
  {
    hide StructureRefusal, Derive, WithBlock, Id;
    OldNode(nodes, k, block, b);
  }

  /** The threshold falls on exactly those inserts whose block outweighs the selected tip
      with a lower blue score, once the tip is deeper than the finality depth. */
  lemma FinalityFallsIff(k: nat, genesis: BlockId, nodes: Nodes, tips: set<BlockId>, block: Block, depth: nat)
    requires Consistent(k, genesis, nodes, tips) && StructureRefusal(nodes, block).None?
    ensures var nodes', id := WithBlock(nodes, k, block), Id(block);
            && nodes != map[] && nodes' != map[] && id in nodes'
            && var tip := HeaviestBlock(nodes);
               FinalityOf(nodes', depth) < FinalityOf(nodes, depth) <==>
                 && depth != U64_MAX && depth < Score(nodes, tip)
                 && KeyLess(ChainKey(nodes, tip), ChainKey(nodes', id)) && Score(nodes', id) < Score(nodes, tip)
  {
    HeaviestStep(k, genesis, nodes, tips, block);
    hide Consistent, StructureRefusal, WithBlock, Id;
    ScoreKept(nodes, k, block, HeaviestBlock(nodes));
  }

  /** With uniform work the threshold never falls. */
  lemma UniformFinalityRises(k: nat, genesis: BlockId, nodes: Nodes, tips: set<BlockId>, block: Block, depth: nat,
                             w: nat)
    requires Consistent(k, genesis, nodes, tips) && StructureRefusal(nodes, block).None?
    requires UniformWork(WithBlock(nodes, k, block), genesis, w)
    ensures nodes != map[] && WithBlock(nodes, k, block) != map[]
    ensures FinalityOf(nodes, depth) <= FinalityOf(WithBlock(nodes, k, block), depth)
  {
    hide *;
    var nodes', id := WithBlock(nodes, k, block), Id(block);
    AcceptKeeps(k, genesis, nodes, tips, block);
    HeaviestStep(k, genesis, nodes, tips, block);
    var tip := HeaviestBlock(nodes);
    ScoreKept(nodes, k, block, tip);
    if HeaviestBlock(nodes') == id {
      Outweighs(nodes', id, tip);
      HeavierMeansHigher(k, genesis, nodes', WithTip(tips, block), w, id, tip);
    }
    ScoreIs(nodes', id);
    ScoreIs(nodes', tip);
    ScoresDecide(nodes, nodes', depth);
  }

  lemma Outweighs(nodes: Nodes, tip: BlockId, b: BlockId)
    requires nodes != map[] && HeaviestBlock(nodes) == tip && b in nodes
    ensures tip in nodes && Heavier(nodes, tip, b)
  {
  }

  lemma ScoreIs(nodes: Nodes, b: BlockId)
    requires b in nodes
    ensures Score(nodes, b) == nodes[b].ghostdag.blueScore
  {
  }

  lemma ScoresDecide(nodes: Nodes, nodes': Nodes, depth: nat)
    requires nodes != map[] && nodes' != map[]
    requires Score(nodes', HeaviestBlock(nodes')) >= Score(nodes, HeaviestBlock(nodes))
    ensures FinalityOf(nodes, depth) <= FinalityOf(nodes', depth)
  {
    hide IsHeaviest;
  }

  /** Where the threshold does not fall, no state that may still be needed is missing. */
  lemma RetainedStep(k: nat, nodes: Nodes, block: Block, stored: set<BlockId>, depth: nat)
    requires StructureRefusal(nodes, block).None? && nodes != map[] && WithBlock(nodes, k, block) != map[]
    requires Retained(nodes, stored, depth) && FinalityOf(nodes, depth) <= FinalityOf(WithBlock(nodes, k, block), depth)
    ensures Retained(WithBlock(nodes, k, block), Unpruned(WithBlock(nodes, k, block), stored + {Id(block)}, depth),
                     depth)
  {
    var nodes', id := WithBlock(nodes, k, block), Id(block);
    NewNode(nodes, k, block);
    hide StructureRefusal, WithBlock, Id, FinalityOf, Derive, GraphOf;
    forall b | b in nodes' && Score(nodes', b) >= FinalityOf(nodes', depth)
      ensures b in Unpruned(nodes', stored + {id}, depth)
    {
      if b != id {
        ScoreKept(nodes, k, block, b);
        assert b in stored;
      }
    }
  }

  /** Without finality nothing is ever pruned. */
  lemma UnboundedRetained(nodes: Nodes, stored: set<BlockId>)
    requires nodes != map[]
    ensures Unpruned(nodes, stored, U64_MAX) == stored
    ensures Retained(nodes, stored, U64_MAX) <==> nodes.Keys <= stored
  {
  }

  /** The selected tip's state survives every insert, whatever the works. */
  lemma TipStateKept(k: nat, genesis: BlockId, nodes: Nodes, tips: set<BlockId>, block: Block, stored: set<BlockId>,
                     depth: nat)
    requires Consistent(k, genesis, nodes, tips) && StructureRefusal(nodes, block).None? && nodes != map[]
    requires HeaviestBlock(nodes) in stored
    ensures WithBlock(nodes, k, block) != map[]
    ensures HeaviestBlock(WithBlock(nodes, k, block)) in Unpruned(WithBlock(nodes, k, block), stored + {Id(block)},
                                                                  depth)
  {
    HeaviestStep(k, genesis, nodes, tips, block);
    hide *;
    TipUnpruned(WithBlock(nodes, k, block), stored + {Id(block)}, depth);
  }

  lemma TipUnpruned(nodes: Nodes, stored: set<BlockId>, depth: nat)
    requires nodes != map[] && HeaviestBlock(nodes) in stored
    ensures HeaviestBlock(nodes) in Unpruned(nodes, stored, depth)
  {
    hide IsHeaviest;
  }

  // ------------------------------------------------------------------
  // A run on which the threshold falls

  ghost predicate Ranked(nodes: Nodes, b: BlockId, score: nat, blueWork: int, own: nat) {
    && b in nodes && nodes[b].ghostdag.blueScore == score && nodes[b].ghostdag.blueWork == blueWork
    && nodes[b].block.work == own
  }

  lemma LoneParent(nodes: Nodes, p: BlockId)
    requires p in nodes
    ensures HeaviestOf(nodes, [p]) == p && MergeSet(GraphOf(nodes), [p], p) == {}
  {
    assert p in [p];
  }

  /** A block with one parent scores one more and carries its parent's work further. */
  lemma ChildRanks(k: nat, genesis: BlockId, nodes: Nodes, tips: set<BlockId>, block: Block, p: BlockId, score: nat,
                   blueWork: int, own: nat)
    requires Consistent(k, genesis, nodes, tips) && Ranked(nodes, p, score, blueWork, own)
    requires block.parents == [p] && Id(block) !in nodes
    ensures StructureRefusal(nodes, block).None?
    ensures Ranked(WithBlock(nodes, k, block), Id(block), score + 1, blueWork + own, block.work)
  {
    OnlyParent(nodes, block, p);
    NodeFacts(k, genesis, nodes, tips, p);
    hide *;
    NewNode(nodes, k, block);
    LoneParent(nodes, p);
    LoneDerived(nodes, k, p);
    RankedBy(nodes, WithBlock(nodes, k, block), p, Id(block), score, blueWork, own);
  }

  lemma OnlyParent(nodes: Nodes, block: Block, p: BlockId)
    requires p in nodes && block.parents == [p] && Id(block) !in nodes
    ensures StructureRefusal(nodes, block).None?
  {
    hide Id;
  }

  lemma RankedBy(nodes: Nodes, nodes': Nodes, p: BlockId, id: BlockId, score: nat, blueWork: int, own: nat)
    requires Ranked(nodes, p, score, blueWork, own) && id in nodes'
    requires nodes'[id].ghostdag.blueScore == nodes[p].ghostdag.blueScore + 1
    requires nodes'[id].ghostdag.blueWork == nodes[p].ghostdag.blueWork + nodes[p].block.work
    ensures Ranked(nodes', id, score + 1, blueWork + own, nodes'[id].block.work)
  {
  }

  lemma LoneDerived(nodes: Nodes, k: nat, p: BlockId)
    requires BlueCluster(nodes, k, p) && Derived(nodes, k, p) && Acyclic(GraphOf(nodes))
    requires MergeSet(GraphOf(nodes), [p], p) == {}
    ensures Derive(nodes, k, [p], p).blueScore == nodes[p].ghostdag.blueScore + 1
    ensures Derive(nodes, k, [p], p).blueWork == nodes[p].ghostdag.blueWork + nodes[p].block.work
  {
    assert p in [p];
    NewBluesFacts(nodes, k, [p], p);
    DeriveTotals(nodes, k, [p], p);
    StartWork(nodes, k, [p], p);
    hide Derive, BlueCluster, Derived, GraphOf;
    var d := Derive(nodes, k, [p], p);
    assert d.mergesetBlues == [];
  }

  /** A DAG and the blocks whose states a ledger on it stores. */
  datatype Stage = Stage(st: State, stored: set<BlockId>)

  ghost function Advance(k: nat, depth: nat, s: Stage, block: Block): Stage {
    var nodes := WithBlockOr(s.st.nodes, k, block);
    Stage(State(nodes, WithTip(s.st.tips, block)),
          if nodes == map[] then {} else Unpruned(nodes, s.stored + {Id(block)}, depth))
  }

  ghost function WithBlockOr(nodes: Nodes, k: nat, block: Block): Nodes {
    if block.parents != [] && Present(nodes, block.parents) then WithBlock(nodes, k, block) else nodes
  }

  /** A sound stage whose selected tip has the given blue score and work. */
  ghost predicate At(k: nat, genesis: BlockId, s: Stage, tip: BlockId, score: nat, blueWork: int) {
    && Consistent(k, genesis, s.st.nodes, s.st.tips)
    && s.st.nodes != map[] && HeaviestBlock(s.st.nodes) == tip
    && tip in s.st.nodes && s.st.nodes[tip].ghostdag.blueScore == score && s.st.nodes[tip].ghostdag.blueWork == blueWork
  }

  /** A block on `p` is not refused for finality, and `p`'s state is there. */
  ghost predicate Buildable(s: Stage, p: BlockId, depth: nat) {
    && s.st.nodes != map[] && p in s.st.nodes && p in s.stored
    && Score(s.st.nodes, p) >= FinalityOf(s.st.nodes, depth)
  }

  /** One more single-parent block: where the selected tip goes is decided by work. */
  lemma AdvanceStep(k: nat, genesis: BlockId, depth: nat, s: Stage, tip: BlockId, tipScore: nat, tipWork: int,
                    block: Block, p: BlockId, score: nat, blueWork: int, own: nat)
    requires At(k, genesis, s, tip, tipScore, tipWork) && Ranked(s.st.nodes, p, score, blueWork, own)
    requires block.parents == [p] && Id(block) !in s.st.nodes && blueWork + own != tipWork && depth != U64_MAX
    ensures StructureRefusal(s.st.nodes, block).None? && Advance(k, depth, s, block).st.nodes != map[]
    ensures var s', id := Advance(k, depth, s, block), Id(block);
            && Ranked(s'.st.nodes, id, score + 1, blueWork + own, block.work)
            && (if blueWork + own > tipWork then At(k, genesis, s', id, score + 1, blueWork + own)
                else At(k, genesis, s', tip, tipScore, tipWork))
            && s'.st.nodes.Keys == s.st.nodes.Keys + {id}
            && var threshold := SatSub(if blueWork + own > tipWork then score + 1 else tipScore, depth);
               FinalityOf(s'.st.nodes, depth) == threshold
               && s'.stored == set b | b in s.stored + {id} && Score(s'.st.nodes, b) >= threshold
  {
    hide *;
    AtFacts(k, genesis, s, tip, tipScore, tipWork);
    ScoreOf(s.st.nodes, p, score, blueWork, own);
    OnlyParent(s.st.nodes, block, p);
    var nodes, nodes', id := s.st.nodes, WithBlock(s.st.nodes, k, block), Id(block);
    ChildRanks(k, genesis, nodes, s.st.tips, block, p, score, blueWork, own);
    AcceptKeeps(k, genesis, nodes, s.st.tips, block);
    HeaviestStep(k, genesis, nodes, s.st.tips, block);
    ScoreKept(nodes, k, block, tip);
    Advanced(k, depth, s, block);
    Resettles(k, genesis, depth, s, tip, tipScore, tipWork, block, score, blueWork + own);
  }

  lemma AtFacts(k: nat, genesis: BlockId, s: Stage, tip: BlockId, score: nat, blueWork: int)
    requires At(k, genesis, s, tip, score, blueWork)
    ensures Consistent(k, genesis, s.st.nodes, s.st.tips) && s.st.nodes != map[]
    ensures HeaviestBlock(s.st.nodes) == tip && tip in s.st.nodes
  {
  }

  lemma Advanced(k: nat, depth: nat, s: Stage, block: Block)
    requires StructureRefusal(s.st.nodes, block).None? && WithBlock(s.st.nodes, k, block) != map[]
    ensures Advance(k, depth, s, block) ==
            Stage(State(WithBlock(s.st.nodes, k, block), WithTip(s.st.tips, block)),
                  Unpruned(WithBlock(s.st.nodes, k, block), s.stored + {Id(block)}, depth))
  {
    hide WithBlock, WithTip, Unpruned, Id;
  }

  lemma Resettles(k: nat, genesis: BlockId, depth: nat, s: Stage, tip: BlockId, tipScore: nat, tipWork: int,
                  block: Block, score: nat, work: int)
    requires At(k, genesis, s, tip, tipScore, tipWork) && work != tipWork && depth != U64_MAX
    requires StructureRefusal(s.st.nodes, block).None?
    requires var nodes', id := WithBlock(s.st.nodes, k, block), Id(block);
             && Consistent(k, genesis, nodes', WithTip(s.st.tips, block)) && nodes' != map[] && id in nodes'
             && tip in nodes'
             && Ranked(nodes', id, score + 1, work, block.work)
             && ChainKey(nodes', tip) == ChainKey(s.st.nodes, tip)
             && HeaviestBlock(nodes') == (if KeyLess(ChainKey(s.st.nodes, tip), ChainKey(nodes', id)) then id else tip)
             && Advance(k, depth, s, block) == Stage(State(nodes', WithTip(s.st.tips, block)),
                                                     Unpruned(nodes', s.stored + {id}, depth))
    ensures var s', id := Advance(k, depth, s, block), Id(block);
            && (if work > tipWork then At(k, genesis, s', id, score + 1, work)
                else At(k, genesis, s', tip, tipScore, tipWork))
            && s'.st.nodes != map[]
            && var threshold := SatSub(if work > tipWork then score + 1 else tipScore, depth);
               FinalityOf(s'.st.nodes, depth) == threshold
               && s'.stored == set b | b in s.stored + {id} && Score(s'.st.nodes, b) >= threshold
  {
    hide Consistent, WithBlock, WithTip, Id, Advance, StructureRefusal, IsHeaviest;
  }

  /** What a block is known by stays as it is. */
  lemma RankKept(k: nat, depth: nat, s: Stage, block: Block, b: BlockId, score: nat, blueWork: int, own: nat)
    requires StructureRefusal(s.st.nodes, block).None? && Ranked(s.st.nodes, b, score, blueWork, own)
    ensures Ranked(Advance(k, depth, s, block).st.nodes, b, score, blueWork, own)
  {
    ScoreKept(s.st.nodes, k, block, b);
    hide Id;
  }

  /** A family of concrete runs at finality depth 3 on which the threshold falls after
      states were pruned: a chain of four unit-work blocks, then a block of work 100 on the
      first of them and one child. The genesis ends up above the threshold, without a state. */
  lemma FinalityCanFall(k: nat, gen: Block, a1: Block, a2: Block, a3: Block, a4: Block, b: Block, c: Block)
    requires && gen.work == 1 && a1.work == 1 && a2.work == 1 && a3.work == 1 && a4.work == 1 && b.work == 100
             && c.work == 1
    requires a1.parents == [Id(gen)] && a2.parents == [Id(a1)] && a3.parents == [Id(a2)] && a4.parents == [Id(a3)]
    requires b.parents == [Id(a1)] && c.parents == [Id(b)]
    requires Distinct([Id(gen), Id(a1), Id(a2), Id(a3), Id(a4), Id(b), Id(c)])
    ensures var s4 := Advance(k, 3,
                              Advance(k, 3, Advance(k, 3, Advance(k, 3, Stage(Start(gen), {Id(gen)}), a1), a2), a3),
                              a4);
            var s5 := Advance(k, 3, s4, b);
            var s6 := Advance(k, 3, s5, c);
            && s4.st.nodes != map[] && s5.st.nodes != map[] && s6.st.nodes != map[]
            && Consistent(k, Id(gen), s4.st.nodes, s4.st.tips) && Consistent(k, Id(gen), s5.st.nodes, s5.st.tips)
            && Consistent(k, Id(gen), s6.st.nodes, s6.st.tips)
            // B and C are new and build on stored blocks that are not final ...
            && FinalityOf(s4.st.nodes, 3) == 1 && Buildable(s4, Id(a1), 3) && Id(b) !in s4.st.nodes
            && FinalityOf(s5.st.nodes, 3) == 1 && Buildable(s5, Id(b), 3) && Id(c) !in s5.st.nodes
            // ... and yet afterwards the genesis may be built on, but is not stored.
            && FinalityOf(s6.st.nodes, 3) == 0 && Id(gen) in s6.st.nodes && Id(gen) !in s6.stored
            && !Retained(s6.st.nodes, s6.stored, 3)
            && s6.st.nodes.Keys == {Id(gen), Id(a1), Id(a2), Id(a3), Id(a4), Id(b), Id(c)}
  {
    hide *;
    var (g, i1, i2, i3, i4, ib, ic) := (Id(gen), Id(a1), Id(a2), Id(a3), Id(a4), Id(b), Id(c));
    AllDifferent(g, i1, i2, i3, i4, ib, ic);
    Thresholds();
    ChainOfFour(k, gen, a1, a2, a3, a4);
    var s4 := Advance(k, 3, Advance(k, 3, Advance(k, 3, Advance(k, 3, Stage(Start(gen), {g}), a1), a2), a3), a4);
    AtFacts(k, g, s4, i4, 4, 4);
    AdvanceStep(k, g, 3, s4, i4, 4, 4, b, i1, 1, 1, 1);
    RankKept(k, 3, s4, b, g, 0, 0, 1);
    ScoreOf(s4.st.nodes, g, 0, 0, 1);
    var s5 := Advance(k, 3, s4, b);
    AtFacts(k, g, s5, i4, 4, 4);
    ScoreOf(s5.st.nodes, ib, 2, 2, 100);
    IsBuildable(s5, ib, 3);
    AdvanceStep(k, g, 3, s5, i4, 4, 4, c, ib, 2, 2, 100);
    RankKept(k, 3, s5, c, g, 0, 0, 1);
    var s6 := Advance(k, 3, s5, c);
    ScoreOf(s6.st.nodes, g, 0, 0, 1);
    AtFacts(k, g, s6, ic, 3, 102);
    NotRetained(s6.st.nodes, s6.stored, 3, g);
  }

  lemma Thresholds()
    ensures SatSub(1, 3) == 0 && SatSub(2, 3) == 0 && SatSub(3, 3) == 0 && SatSub(4, 3) == 1 && 3 != U64_MAX
  {
  }

  /** The unit-work chain: its tip scores four, and the genesis state is gone. */
  lemma ChainOfFour(k: nat, gen: Block, a1: Block, a2: Block, a3: Block, a4: Block)
    requires gen.work == 1 && a1.work == 1 && a2.work == 1 && a3.work == 1 && a4.work == 1
    requires a1.parents == [Id(gen)] && a2.parents == [Id(a1)] && a3.parents == [Id(a2)] && a4.parents == [Id(a3)]
    requires Id(a1) !in {Id(gen)} && Id(a2) !in {Id(gen), Id(a1)} && Id(a3) !in {Id(gen), Id(a1), Id(a2)}
    requires Id(a4) !in {Id(gen), Id(a1), Id(a2), Id(a3)}
    ensures var s4 := Advance(k, 3,
                              Advance(k, 3, Advance(k, 3, Advance(k, 3, Stage(Start(gen), {Id(gen)}), a1), a2), a3),
                              a4);
            && At(k, Id(gen), s4, Id(a4), 4, 4) && s4.st.nodes != map[] && FinalityOf(s4.st.nodes, 3) == 1
            && Ranked(s4.st.nodes, Id(gen), 0, 0, 1) && Ranked(s4.st.nodes, Id(a1), 1, 1, 1)
            && s4.st.nodes.Keys == {Id(gen), Id(a1), Id(a2), Id(a3), Id(a4)} && Id(gen) !in s4.stored
            && Buildable(s4, Id(a1), 3)
    ensures var s0 := Stage(Start(gen), {Id(gen)});
            var s1 := Advance(k, 3, s0, a1);
            var s2 := Advance(k, 3, s1, a2);
            var s3 := Advance(k, 3, s2, a3);
            && Consistent(k, Id(gen), s0.st.nodes, s0.st.tips) && Buildable(s0, Id(gen), 3) && Id(a1) !in s0.st.nodes
            && Consistent(k, Id(gen), s1.st.nodes, s1.st.tips) && Buildable(s1, Id(a1), 3) && Id(a2) !in s1.st.nodes
            && Consistent(k, Id(gen), s2.st.nodes, s2.st.tips) && Buildable(s2, Id(a2), 3) && Id(a3) !in s2.st.nodes
            && Consistent(k, Id(gen), s3.st.nodes, s3.st.tips) && Buildable(s3, Id(a3), 3) && Id(a4) !in s3.st.nodes
  {
    hide *;
    var (g, i1, i2, i3, i4) := (Id(gen), Id(a1), Id(a2), Id(a3), Id(a4));
    Thresholds();
    var s0 := Stage(Start(gen), {g});
    StartAt(k, gen);
    AtFacts(k, g, s0, g, 0, 0);
    StartFinality(gen, s0);
    IsBuildable(s0, g, 3);
    AdvanceStep(k, g, 3, s0, g, 0, 0, a1, g, 0, 0, 1);
    RankKept(k, 3, s0, a1, g, 0, 0, 1);
    var s1 := Advance(k, 3, s0, a1);
    AtFacts(k, g, s1, i1, 1, 1);
    ScoreOf(s1.st.nodes, i1, 1, 1, 1);
    IsBuildable(s1, i1, 3);
    AdvanceStep(k, g, 3, s1, i1, 1, 1, a2, i1, 1, 1, 1);
    RankKept(k, 3, s1, a2, g, 0, 0, 1);
    RankKept(k, 3, s1, a2, i1, 1, 1, 1);
    var s2 := Advance(k, 3, s1, a2);
    AtFacts(k, g, s2, i2, 2, 2);
    ScoreOf(s2.st.nodes, i2, 2, 2, 1);
    IsBuildable(s2, i2, 3);
    AdvanceStep(k, g, 3, s2, i2, 2, 2, a3, i2, 2, 2, 1);
    RankKept(k, 3, s2, a3, g, 0, 0, 1);
    RankKept(k, 3, s2, a3, i1, 1, 1, 1);
    var s3 := Advance(k, 3, s2, a3);
    AtFacts(k, g, s3, i3, 3, 3);
    ScoreOf(s3.st.nodes, i3, 3, 3, 1);
    IsBuildable(s3, i3, 3);
    AdvanceStep(k, g, 3, s3, i3, 3, 3, a4, i3, 3, 3, 1);
    RankKept(k, 3, s3, a4, g, 0, 0, 1);
    RankKept(k, 3, s3, a4, i1, 1, 1, 1);
    var s4 := Advance(k, 3, s3, a4);
    ScoreOf(s4.st.nodes, g, 0, 0, 1);
    ScoreOf(s4.st.nodes, i1, 1, 1, 1);
    IsBuildable(s4, i1, 3);
  }

  lemma IsBuildable(s: Stage, p: BlockId, depth: nat)
    requires && s.st.nodes != map[] && p in s.st.nodes && p in s.stored
             && Score(s.st.nodes, p) >= FinalityOf(s.st.nodes, depth)
    ensures Buildable(s, p, depth)
  {
  }

  lemma StartFinality(gen: Block, s: Stage)
    requires s == Stage(Start(gen), {Id(gen)}) && s.st.nodes != map[] && HeaviestBlock(s.st.nodes) == Id(gen)
    ensures FinalityOf(s.st.nodes, 3) == 0
  {
    hide Id, IsHeaviest;
  }

  lemma AllDifferent(g: BlockId, i1: BlockId, i2: BlockId, i3: BlockId, i4: BlockId, ib: BlockId, ic: BlockId)
    requires Distinct([g, i1, i2, i3, i4, ib, ic])
    ensures i1 !in {g} && i2 !in {g, i1} && i3 !in {g, i1, i2} && i4 !in {g, i1, i2, i3}
    ensures ib !in {g, i1, i2, i3, i4} && ic !in {g, i1, i2, i3, i4, ib}
  {
    var ids := [g, i1, i2, i3, i4, ib, ic];
    forall i, j | 0 <= i < j < 7 ensures ids[i] != ids[j] {
    }
    assert ids[0] == g && ids[1] == i1 && ids[2] == i2 && ids[3] == i3 && ids[4] == i4 && ids[5] == ib && ids[6] == ic;
  }

  lemma StartAt(k: nat, gen: Block)
    requires gen.work == 1
    ensures At(k, Id(gen), Stage(Start(gen), {Id(gen)}), Id(gen), 0, 0) && Ranked(Start(gen).nodes, Id(gen), 0, 0, 1)
    ensures Start(gen).nodes.Keys == {Id(gen)}
  {
    StartConsistent(k, gen);
    hide Consistent, Id;
  }

  lemma ScoreOf(nodes: Nodes, b: BlockId, score: nat, blueWork: int, own: nat)
    requires Ranked(nodes, b, score, blueWork, own)
    ensures Score(nodes, b) == score && b in nodes
  {
  }

  lemma NotRetained(nodes: Nodes, stored: set<BlockId>, depth: nat, b: BlockId)
    requires nodes != map[] && b in nodes && b !in stored && Score(nodes, b) >= FinalityOf(nodes, depth)
    ensures !Retained(nodes, stored, depth)
  {
  }
}
