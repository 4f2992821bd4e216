/** Which blocks a DAG accepts and what accepting one makes of it, as functions of the
    stored blocks and the installed rules; and whole runs of inserts from a genesis. */
module Acceptance {
  import opened Types
  import opened Graphs
  import opened Blocks
  import opened Ghostdag
  import opened Consensus
  import opened ChainSelection
  import opened Order
  import opened Difficulty
  import Pow

  datatype DagError =
    | DuplicateBlock(id: BlockId)
    | MissingParent(id: BlockId)
    | NoParents(id: BlockId)
    | InvalidBlock(id: BlockId, reason: string)
    | DifficultyMismatch(id: BlockId, expected: u128, actual: u128)
    | NonMonotonicTimestamp(id: BlockId, timestamp: u64, parentTimestamp: u64)
    | InsufficientProofOfWork(id: BlockId, work: u128)

  /** A payload check: `None` accepts, `Some` gives the reason for a refusal. */
  type Validator = Block -> Option<string>

  /** The rules an insert enforces besides the structure of the DAG. */
  datatype Rules = Rules(validator: Option<Validator>, difficulty: Option<Retarget>, requirePow: bool)

  // ------------------------------------------------------------------
  // The selected parent

  /** The heaviest block of a non-empty list. */
  function HeaviestOf(nodes: Nodes, s: seq<BlockId>): (m: BlockId)
    requires s != [] && Present(nodes, s)
    ensures IsHeaviest(nodes, Elements(s), m) && m in s
  {
    if |s| == 1 then
      assert Heavier(nodes, s[0], s[0]);
      assert Elements(s) == {s[0]};
      s[0]
    else
      var m := HeaviestOf(nodes, s[..|s| - 1]);
      var x := s[|s| - 1];
      var r := if KeyLess(ChainKey(nodes, m), ChainKey(nodes, x)) then x else m;
      HeaviestSnoc(nodes, s[..|s| - 1], x, m, r);
      assert s[..|s| - 1] + [x] == s;
      r
  }

  lemma HeaviestSnoc(nodes: Nodes, s: seq<BlockId>, x: BlockId, m: BlockId, r: BlockId)
    requires IsHeaviest(nodes, Elements(s), m) && m in nodes && x in nodes
    requires r == if KeyLess(ChainKey(nodes, m), ChainKey(nodes, x)) then x else m
    ensures IsHeaviest(nodes, Elements(s + [x]), r)
  {
    Snoc(s, x);
    forall p | p in Elements(s + [x]) ensures Heavier(nodes, r, p) {
      assert p != x ==> Heavier(nodes, m, p);
    }
  }

  // ------------------------------------------------------------------
  // Refusals

  /** The first listed parent that is not stored. */
  function FirstMissing(nodes: Nodes, ps: seq<BlockId>): (r: Option<BlockId>)
    ensures r.None? <==> Present(nodes, ps)
  {
    if ps == [] then None
    else if ps[0] !in nodes then Some(ps[0])
    else
      assert forall p :: p in ps <==> p == ps[0] || p in ps[1..];
      FirstMissing(nodes, ps[1..])
  }

  /** The first parent whose timestamp is after `timestamp`. */
  function FirstLater(nodes: Nodes, ps: seq<BlockId>, timestamp: u64): (r: Option<BlockId>)
    requires Present(nodes, ps)
    ensures r.Some? ==> r.value in ps && r.value in nodes && nodes[r.value].block.timestamp > timestamp
    ensures r.None? ==> forall p :: p in ps ==> nodes[p].block.timestamp <= timestamp
  {
    if ps == [] then None
    else if timestamp < nodes[ps[0]].block.timestamp then Some(ps[0])
    else
      assert forall p :: p in ps <==> p == ps[0] || p in ps[1..];
      FirstLater(nodes, ps[1..], timestamp)
  }

  /** Refusals for the shape of the block alone. */
  function StructureRefusal(nodes: Nodes, block: Block): (r: Option<DagError>)
    ensures r.None? ==> Id(block) !in nodes && block.parents != [] && Present(nodes, block.parents)
  {
    if Id(block) in nodes then Some(DuplicateBlock(Id(block)))
    else if block.parents == [] then Some(NoParents(Id(block)))
    else match FirstMissing(nodes, block.parents)
         case Some(p) => Some(MissingParent(p))
         case None => None
  }

  /** Timestamps and works along the selected chain up to `b`, oldest first. */
  ghost function TimesTo(nodes: Nodes, b: BlockId): seq<TimedWork>
    requires b in nodes && Lineages(nodes)
    decreases |Past(GraphOf(nodes), b)|
  {
    assert Lineage(nodes, b);
    var t := TimedWork(nodes[b].block.timestamp, nodes[b].block.work);
    match nodes[b].ghostdag.selectedParent
    case None => [t]
    case Some(sp) => TimesTo(nodes, sp) + [t]
  }

  /** The work the retargeting rule asks of a block on selected parent `sp`. */
  ghost function RequiredWork(nodes: Nodes, r: Retarget, sp: BlockId): u128
    requires sp in nodes && Lineages(nodes)
  {
    NextWork(r, TimesTo(nodes, sp))
  }

  ghost function DifficultyRefusal(nodes: Nodes, block: Block, sp: BlockId, r: Retarget): Option<DagError>
    requires sp in nodes && Lineages(nodes) && Present(nodes, block.parents)
  {
    match FirstLater(nodes, block.parents, block.timestamp)
    case Some(p) => Some(NonMonotonicTimestamp(Id(block), block.timestamp, nodes[p].block.timestamp))
    case None =>
      if block.work != RequiredWork(nodes, r, sp)
      then Some(DifficultyMismatch(Id(block), RequiredWork(nodes, r, sp), block.work))
      else None
  }

  /** Why an insert refuses `block`, checked in this order; `None` if it accepts it. */
  ghost function Refusal(nodes: Nodes, rules: Rules, block: Block): (r: Option<DagError>)
    requires Lineages(nodes)
    ensures r.None? ==> StructureRefusal(nodes, block).None?
  {
    var structure := StructureRefusal(nodes, block);
    if structure.Some? then structure
    else if rules.validator.Some? && rules.validator.value(block).Some?
    then Some(InvalidBlock(Id(block), rules.validator.value(block).value))
    else
      var late := match rules.difficulty
                  case None => None
                  case Some(r) => DifficultyRefusal(nodes, block, HeaviestOf(nodes, block.parents), r);
      if late.Some? then late
      else if rules.requirePow && !Pow.MeetsTarget(Id(block), block.work)
      then Some(InsufficientProofOfWork(Id(block), block.work))
      else None
  }

  /** The first of the parents that is not stored, wherever it stands. */
  lemma {:induction false} FirstMissingIs(nodes: Nodes, ps: seq<BlockId>, i: nat)
    requires i < |ps| && ps[i] !in nodes && forall j :: 0 <= j < i ==> ps[j] in nodes
    ensures FirstMissing(nodes, ps) == Some(ps[i])
  {
    if i > 0 {
      FirstMissingIs(nodes, ps[1..], i - 1);
    }
  }

  lemma {:induction false} FirstLaterIs(nodes: Nodes, ps: seq<BlockId>, t: u64, i: nat)
    requires Present(nodes, ps) && i < |ps| && nodes[ps[i]].block.timestamp > t
    requires forall j :: 0 <= j < i ==> nodes[ps[j]].block.timestamp <= t
    ensures FirstLater(nodes, ps, t) == Some(ps[i])
  {
    if i > 0 {
      FirstLaterIs(nodes, ps[1..], t, i - 1);
    }
  }

  /** The structural checks: an id already stored, then no parents, then the first parent that is
      missing. */
  lemma StructureSpelledOut(nodes: Nodes, block: Block)
    ensures Id(block) in nodes ==> StructureRefusal(nodes, block) == Some(DuplicateBlock(Id(block)))
    ensures Id(block) !in nodes && block.parents == [] ==> StructureRefusal(nodes, block) == Some(NoParents(Id(block)))
    ensures forall i :: 0 <= i < |block.parents| && Id(block) !in nodes && block.parents[i] !in nodes
                        && (forall j :: 0 <= j < i ==> block.parents[j] in nodes) ==>
              StructureRefusal(nodes, block) == Some(MissingParent(block.parents[i]))
    ensures Id(block) !in nodes && block.parents != [] && (forall p :: p in block.parents ==> p in nodes) ==>
              StructureRefusal(nodes, block) == None
  {
    hide Id;
    var ps := block.parents;
    forall i | 0 <= i < |ps| && ps[i] !in nodes && forall j :: 0 <= j < i ==> ps[j] in nodes
      ensures FirstMissing(nodes, ps) == Some(ps[i])
    {
      FirstMissingIs(nodes, ps, i);
    }
  }

  /** The difficulty checks: the first parent later than the block, then its work against the
      retarget of the times and works along the selected parent's chain. */
  lemma DifficultySpelledOut(nodes: Nodes, block: Block, sp: BlockId, r: Retarget)
    requires sp in nodes && Lineages(nodes) && Present(nodes, block.parents)
    ensures forall i :: 0 <= i < |block.parents| && nodes[block.parents[i]].block.timestamp > block.timestamp
                        && (forall j :: 0 <= j < i ==> nodes[block.parents[j]].block.timestamp <= block.timestamp) ==>
              DifficultyRefusal(nodes, block, sp, r) ==
              Some(NonMonotonicTimestamp(Id(block), block.timestamp, nodes[block.parents[i]].block.timestamp))
    ensures (forall p :: p in block.parents ==> nodes[p].block.timestamp <= block.timestamp) ==>
              var work := NextWork(r, TimesTo(nodes, sp));
              DifficultyRefusal(nodes, block, sp, r) ==
              if block.work == work then None else Some(DifficultyMismatch(Id(block), work, block.work))
  {
    hide Id, NextWork, TimesTo;
    var ps := block.parents;
    forall i | 0 <= i < |ps| && nodes[ps[i]].block.timestamp > block.timestamp
               && forall j :: 0 <= j < i ==> nodes[ps[j]].block.timestamp <= block.timestamp
      ensures FirstLater(nodes, ps, block.timestamp) == Some(ps[i])
    {
      FirstLaterIs(nodes, ps, block.timestamp, i);
    }
  }

  /** The samples of a block: time and work of each block of its selected chain, oldest first. */
  lemma {:induction false} TimesSpelledOut(nodes: Nodes, b: BlockId)
    requires b in nodes && Lineages(nodes)
    ensures |TimesTo(nodes, b)| == |ChainTo(nodes, b)|
    ensures forall i :: 0 <= i < |ChainTo(nodes, b)| ==>
              var c := ChainTo(nodes, b)[i];
              && c in nodes
              && TimesTo(nodes, b)[i].timestamp == nodes[c].block.timestamp
              && TimesTo(nodes, b)[i].work == nodes[c].block.work
    decreases |Past(GraphOf(nodes), b)|
  {
    assert Lineage(nodes, b);
    match nodes[b].ghostdag.selectedParent
    case None =>
    case Some(sp) =>
      TimesSpelledOut(nodes, sp);
  }

  /** The block carries the work its past requires, and is no earlier than any parent. */
  ghost predicate OnTarget(nodes: Nodes, r: Retarget, block: Block)
    requires Lineages(nodes) && block.parents != [] && Present(nodes, block.parents)
  {
    && block.work == RequiredWork(nodes, r, HeaviestOf(nodes, block.parents))
    && forall p :: p in block.parents ==> nodes[p].block.timestamp <= block.timestamp
  }

  /** An accepted block is on target. */
  lemma AcceptedWork(nodes: Nodes, rules: Rules, block: Block)
    requires Lineages(nodes) && Refusal(nodes, rules, block).None? && rules.difficulty.Some?
    ensures StructureRefusal(nodes, block).None? && OnTarget(nodes, rules.difficulty.value, block)
  {
  }

  /** A structurally sound block passes the difficulty check exactly if it is on target. */
  lemma RequiredWorkPasses(nodes: Nodes, r: Retarget, block: Block)
    requires Lineages(nodes) && StructureRefusal(nodes, block).None?
    ensures DifficultyRefusal(nodes, block, HeaviestOf(nodes, block.parents), r).None? <==> OnTarget(nodes, r, block)
  {
  }

  // ------------------------------------------------------------------
  // Accepting a block

  ghost function WithChild(nodes: Nodes, ps: seq<BlockId>, id: BlockId): Nodes {
    map b | b in nodes :: if b in ps then nodes[b].(children := nodes[b].children + {id}) else nodes[b]
  }

  /** The DAG with `block` added: its entry holds what its past determines. */
  ghost function WithBlock(nodes: Nodes, k: nat, block: Block): Nodes
    requires block.parents != [] && Present(nodes, block.parents)
  {
    var ps := block.parents;
    WithChild(nodes, ps, Id(block))[Id(block) :=
      Node(block, |PastOf(GraphOf(nodes), ps)|, {}, Derive(nodes, k, ps, HeaviestOf(nodes, ps)))]
  }

  ghost function WithTip(tips: set<BlockId>, block: Block): set<BlockId> {
    tips - Elements(block.parents) + {Id(block)}
  }

  lemma WithBlockExtends(nodes: Nodes, k: nat, block: Block)
    requires StructureRefusal(nodes, block).None?
    ensures Extends(nodes, WithBlock(nodes, k, block), Id(block))
    ensures forall b {:trigger ChildrenStep(nodes, WithBlock(nodes, k, block), Id(block), b)} ::
              b in nodes ==> ChildrenStep(nodes, WithBlock(nodes, k, block), Id(block), b)
  {
    hide Derive, WithBlock, IsHeaviest, StructureRefusal, SameEntry, ChildrenStep, Id;
    NewNode(nodes, k, block);
    SomeParent(nodes, k, block.parents, HeaviestOf(nodes, block.parents));
    forall b | b in nodes
      ensures && SameEntry(nodes, WithBlock(nodes, k, block), b)
              && ChildrenStep(nodes, WithBlock(nodes, k, block), Id(block), b)
    {
      OldNode(nodes, k, block, b);
    }
  }

  lemma OldNode(nodes: Nodes, k: nat, block: Block, b: BlockId)
    requires StructureRefusal(nodes, block).None? && b in nodes
    ensures SameEntry(nodes, WithBlock(nodes, k, block), b)
    ensures ChildrenStep(nodes, WithBlock(nodes, k, block), Id(block), b)
  {
    hide Derive, PastOf, GraphOf, IsHeaviest;
  }

  lemma NewNode(nodes: Nodes, k: nat, block: Block)
    requires StructureRefusal(nodes, block).None?
    ensures var nodes', id := WithBlock(nodes, k, block), Id(block);
            && nodes'.Keys == nodes.Keys + {id} && id !in nodes && Present(nodes, block.parents)
            && nodes'[id].block == block
            && nodes'[id].ghostdag == Derive(nodes, k, block.parents, HeaviestOf(nodes, block.parents))
            && nodes'[id].pastSize == |PastOf(GraphOf(nodes), block.parents)| && nodes'[id].children == {}
  {
    hide Derive, PastOf, GraphOf, IsHeaviest;
  }

  lemma SomeParent(nodes: Nodes, k: nat, ps: seq<BlockId>, sp: BlockId)
    requires sp in nodes
    ensures Derive(nodes, k, ps, sp).selectedParent == Some(sp)
  {
  }

  /** The past of a new block, counted from its derived data. */
  lemma PastCount(k: nat, genesis: BlockId, nodes: Nodes, tips: set<BlockId>, ps: seq<BlockId>, sp: BlockId)
    requires Consistent(k, genesis, nodes, tips) && sp in nodes && sp in ps
    ensures var d := Derive(nodes, k, ps, sp);
            |PastOf(GraphOf(nodes), ps)| == nodes[sp].pastSize + 1 + |d.mergesetBlues| + |d.mergesetReds|
  {
    NodeFacts(k, genesis, nodes, tips, sp);
    PastSplits(nodes, ps, sp);
    NewBluesFacts(nodes, k, ps, sp);
  }

  /** Accepting a block keeps the consensus invariant. */
  lemma AcceptKeeps(k: nat, genesis: BlockId, nodes: Nodes, tips: set<BlockId>, block: Block)
    requires Consistent(k, genesis, nodes, tips) && StructureRefusal(nodes, block).None?
    ensures Consistent(k, genesis, WithBlock(nodes, k, block), WithTip(tips, block))
    ensures Lineages(WithBlock(nodes, k, block))
  {
    hide *;
    var nodes', id := WithBlock(nodes, k, block), Id(block);
    NewNode(nodes, k, block);
    var sp := HeaviestOf(nodes, block.parents);
    WithBlockExtends(nodes, k, block);
    NewEntryHolds(k, genesis, nodes, tips, nodes'[id], sp);
    ConsistentStep(k, genesis, nodes, tips, nodes', id, sp);
    TipsNamed(tips, block);
    ConsistentLineages(k, genesis, nodes', WithTip(tips, block));
  }

  lemma TipsNamed(tips: set<BlockId>, block: Block)
    ensures WithTip(tips, block) == tips - Elements(block.parents) + {Id(block)}
  {
  }

  lemma NewEntryHolds(k: nat, genesis: BlockId, nodes: Nodes, tips: set<BlockId>, entry: Node, sp: BlockId)
    requires Consistent(k, genesis, nodes, tips) && Present(nodes, entry.block.parents)
    requires IsHeaviest(nodes, Elements(entry.block.parents), sp) && sp in entry.block.parents
    requires entry.ghostdag == Derive(nodes, k, entry.block.parents, sp)
    requires entry.pastSize == |PastOf(GraphOf(nodes), entry.block.parents)| && entry.children == {}
    ensures NewEntry(nodes, k, entry, sp)
  {
    PastCount(k, genesis, nodes, tips, entry.block.parents, sp);
  }

  /** The graph and the selected-parent tree each gain exactly the new block. */
  lemma AcceptGraph(k: nat, genesis: BlockId, nodes: Nodes, tips: set<BlockId>, block: Block)
    requires Consistent(k, genesis, nodes, tips) && StructureRefusal(nodes, block).None?
    ensures GraphOf(WithBlock(nodes, k, block)) == GraphOf(nodes)[Id(block) := block.parents]
    ensures SelectedParents(WithBlock(nodes, k, block)) ==
            SelectedParents(nodes)[Id(block) := HeaviestOf(nodes, block.parents)]
  {
    var nodes', id := WithBlock(nodes, k, block), Id(block);
    var sp := HeaviestOf(nodes, block.parents);
    WithBlockExtends(nodes, k, block);
    SomeParent(nodes, k, block.parents, sp);
    NodeFacts(k, genesis, nodes, tips, sp);
    NewNode(nodes, k, block);
    hide *;
    ExtendsGraph(nodes, nodes', id);
    ExtendsSelected(nodes, nodes', id, sp);
  }

  lemma ExtendsSelected(nodes: Nodes, nodes': Nodes, id: BlockId, sp: BlockId)
    requires Extends(nodes, nodes', id) && nodes'[id].ghostdag.selectedParent == Some(sp)
    ensures SelectedParents(nodes') == SelectedParents(nodes)[id := sp]
  {
    forall b | b in nodes ensures SameEntry(nodes, nodes', b) {
    }
  }

  ghost predicate OwnId(nodes: Nodes, b: BlockId) {
    b in nodes && Id(nodes[b].block) == b
  }

  /** Every block is stored under its own digest. */
  ghost predicate Identified(nodes: Nodes) {
    forall b {:trigger OwnId(nodes, b)} :: b in nodes ==> OwnId(nodes, b)
  }

  lemma AcceptIdentified(nodes: Nodes, k: nat, block: Block)
    requires Identified(nodes) && StructureRefusal(nodes, block).None?
    ensures Identified(WithBlock(nodes, k, block))
  {
    var nodes' := WithBlock(nodes, k, block);
    hide Id, StructureRefusal, Derive, GraphOf, IsHeaviest, WithBlock;
    WithBlockExtends(nodes, k, block);
    NewNode(nodes, k, block);
    forall b | b in nodes' ensures OwnId(nodes', b) {
      assert b != Id(block) ==> OwnId(nodes, b) && SameEntry(nodes, nodes', b);
    }
  }

  // ------------------------------------------------------------------
  // Runs

  datatype State = State(nodes: Nodes, tips: set<BlockId>)

  function Start(gen: Block): State {
    State(map[Id(gen) := Node(gen, 0, {}, GENESIS_DATA)], {Id(gen)})
  }

  /** One insert: a refused block changes nothing. */
  ghost function Insert(k: nat, rules: Rules, st: State, block: Block): State
    requires Lineages(st.nodes)
  {
    if Refusal(st.nodes, rules, block).Some? then st
    else State(WithBlock(st.nodes, k, block), WithTip(st.tips, block))
  }

  /** Inserting blocks one after another from a genesis. The consensus invariant holds
      after every run. */
  ghost function Run(k: nat, rules: Rules, gen: Block, blocks: seq<Block>): (st: State)
    ensures Consistent(k, Id(gen), st.nodes, st.tips) && Lineages(st.nodes)
  {
    if blocks == [] then
      StartConsistent(k, gen);
      Start(gen)
    else
      var st := Run(k, rules, gen, blocks[..|blocks| - 1]);
      var b := blocks[|blocks| - 1];
      InsertKeeps(k, Id(gen), rules, st, b);
      Insert(k, rules, st, b)
  }

  lemma InsertKeeps(k: nat, genesis: BlockId, rules: Rules, st: State, b: Block)
    requires Consistent(k, genesis, st.nodes, st.tips) && Lineages(st.nodes)
    ensures var st' := Insert(k, rules, st, b);
            Consistent(k, genesis, st'.nodes, st'.tips) && Lineages(st'.nodes)
  {
    if Refusal(st.nodes, rules, b).None? {
      AcceptKeeps(k, genesis, st.nodes, st.tips, b);
    }
  }

  lemma StartConsistent(k: nat, gen: Block)
    ensures var st := Start(gen);
            && Consistent(k, Id(gen), st.nodes, st.tips) && Lineages(st.nodes)
            && GraphOf(st.nodes) == map[Id(gen) := []] && SelectedParents(st.nodes) == map[]
  {
    var nodes, tips, id := Start(gen).nodes, Start(gen).tips, Id(gen);
    var g := GraphOf(nodes);
    assert g == map[id := []];
    PastUnfold(g, id);
    assert Past(g, id) == {};
    forall b | b in nodes ensures !Anc(g, b, b) {
      assert b !in Past(g, b);
    }
    assert RootedAt(nodes, id, id);
    assert Derived(nodes, k, id);
    assert BlueCluster(nodes, k, id);
    assert ChildrenKnown(nodes, id);
    forall b ensures b in tips <==> IsTip(nodes, b) {
    }
    ConsistentLineages(k, id, nodes, tips);
  }

  // ------------------------------------------------------------------
  // Timestamps

  ghost predicate NotBeforeParents(nodes: Nodes, b: BlockId) {
    && b in nodes
    && forall p :: p in GraphOf(nodes)[b] ==> p in nodes && nodes[p].block.timestamp <= nodes[b].block.timestamp
  }

  ghost predicate TimesOrdered(nodes: Nodes) {
    forall b {:trigger NotBeforeParents(nodes, b)} :: b in nodes ==> NotBeforeParents(nodes, b)
  }

  lemma AcceptTimes(k: nat, genesis: BlockId, nodes: Nodes, tips: set<BlockId>, rules: Rules, block: Block)
    requires Consistent(k, genesis, nodes, tips) && Lineages(nodes) && TimesOrdered(nodes)
    requires Refusal(nodes, rules, block).None? && rules.difficulty.Some?
    ensures TimesOrdered(WithBlock(nodes, k, block))
  {
    AcceptedWork(nodes, rules, block);
    AcceptGraph(k, genesis, nodes, tips, block);
    WithBlockExtends(nodes, k, block);
    hide Consistent, Refusal, WithBlock, GraphOf, Lineages;
    TimesStep(nodes, WithBlock(nodes, k, block), Id(block), block.parents);
  }

  lemma TimesStep(nodes: Nodes, nodes': Nodes, id: BlockId, ps: seq<BlockId>)
    requires Extends(nodes, nodes', id) && TimesOrdered(nodes) && Present(nodes, ps)
    requires GraphOf(nodes') == GraphOf(nodes)[id := ps]
    requires forall p :: p in ps ==> nodes[p].block.timestamp <= nodes'[id].block.timestamp
    ensures TimesOrdered(nodes')
  {
    KeysOf(nodes);
    hide GraphOf;
    forall b | b in nodes' ensures NotBeforeParents(nodes', b) {
      if b != id {
        assert NotBeforeParents(nodes, b) && SameEntry(nodes, nodes', b);
      }
      forall p | p in GraphOf(nodes')[b] ensures p in nodes && nodes'[p].block == nodes[p].block {
        assert p in nodes ==> SameEntry(nodes, nodes', p);
      }
    }
  }

  lemma KeysOf(nodes: Nodes)
    ensures GraphOf(nodes).Keys == nodes.Keys
  {
  }

  /** With difficulty enforced from the genesis on, no block precedes a parent. */
  lemma {:induction false} RunTimesOrdered(k: nat, rules: Rules, gen: Block, blocks: seq<Block>)
    requires rules.difficulty.Some?
    ensures TimesOrdered(Run(k, rules, gen, blocks).nodes)
  {
    if blocks == [] {
      StartConsistent(k, gen);
      assert NotBeforeParents(Start(gen).nodes, Id(gen));
    } else {
      RunTimesOrdered(k, rules, gen, blocks[..|blocks| - 1]);
      var st := Run(k, rules, gen, blocks[..|blocks| - 1]);
      var b := blocks[|blocks| - 1];
      if Refusal(st.nodes, rules, b).None? {
        AcceptTimes(k, Id(gen), st.nodes, st.tips, rules, b);
      }
    }
  }

  lemma {:induction false} TimesAlongPast(nodes: Nodes, a: BlockId, b: BlockId)
    requires WellFormed(GraphOf(nodes)) && TimesOrdered(nodes) && b in nodes && a in Past(GraphOf(nodes), b)
    ensures a in nodes && nodes[a].block.timestamp <= nodes[b].block.timestamp
    decreases |Past(GraphOf(nodes), b)|
  {
    var g := GraphOf(nodes);
    AncUnfold(g, a, b);
    var q :| q in g[b] && (a == q || Anc(g, a, q));
    assert NotBeforeParents(nodes, b);
    if a != q {
      ParentIsAnc(g, b, q);
      PastShrinks(g, q, b);
      TimesAlongPast(nodes, a, q);
    }
  }

  /** Along every ancestor path of every run, timestamps never decrease. */
  lemma RunTimesMonotone(k: nat, rules: Rules, gen: Block, blocks: seq<Block>, a: BlockId, b: BlockId)
    requires rules.difficulty.Some?
    ensures var nodes := Run(k, rules, gen, blocks).nodes;
            b in nodes && a in Past(GraphOf(nodes), b) ==>
              a in nodes && nodes[a].block.timestamp <= nodes[b].block.timestamp
  {
    var st := Run(k, rules, gen, blocks);
    RunTimesOrdered(k, rules, gen, blocks);
    if b in st.nodes && a in Past(GraphOf(st.nodes), b) {
      TimesAlongPast(st.nodes, a, b);
    }
  }

  // ------------------------------------------------------------------
  // Arrival order does not matter

  /** Every block of the list was accepted when its turn came. */
  ghost predicate AllAccepted(k: nat, rules: Rules, gen: Block, blocks: seq<Block>)
    decreases |blocks|
  {
    blocks == [] ||
      (AllAccepted(k, rules, gen, blocks[..|blocks| - 1]) &&
       Refusal(Run(k, rules, gen, blocks[..|blocks| - 1]).nodes, rules, blocks[|blocks| - 1]).None?)
  }

  ghost predicate Held(nodes: Nodes, x: Block) {
    Id(x) in nodes && nodes[Id(x)].block == x
  }

  ghost predicate FromList(nodes: Nodes, gen: Block, blocks: seq<Block>, b: BlockId) {
    b in nodes && Id(nodes[b].block) == b && (nodes[b].block == gen || nodes[b].block in blocks)
  }

  /** Exactly the genesis and the blocks inserted are stored, under their own ids. */
  ghost predicate Stores(nodes: Nodes, gen: Block, blocks: seq<Block>) {
    && (forall b {:trigger FromList(nodes, gen, blocks, b)} :: b in nodes ==> FromList(nodes, gen, blocks, b))
    && Held(nodes, gen)
    && (forall x {:trigger Held(nodes, x)} :: x in blocks ==> Held(nodes, x))
  }

  lemma {:induction false} RunStores(k: nat, rules: Rules, gen: Block, blocks: seq<Block>)
    requires AllAccepted(k, rules, gen, blocks)
    ensures Stores(Run(k, rules, gen, blocks).nodes, gen, blocks)
    decreases |blocks|
  {
    hide *;
    RunUnfold(k, rules, gen, blocks);
    if blocks == [] {
      StartStores(gen);
    } else {
      var init, x := blocks[..|blocks| - 1], blocks[|blocks| - 1];
      RunStores(k, rules, gen, init);
      var nodes := Run(k, rules, gen, init).nodes;
      assert forall y :: y in blocks <==> y in init || y == x by {
        assert blocks == init + [x];
      }
      StoresStep(nodes, k, gen, init, blocks, x);
    }
  }

  /** The last step of an accepting run. */
  lemma RunUnfold(k: nat, rules: Rules, gen: Block, blocks: seq<Block>)
    requires AllAccepted(k, rules, gen, blocks)
    ensures blocks == [] ==> Run(k, rules, gen, blocks) == Start(gen)
    ensures blocks != [] ==>
              var init, x := blocks[..|blocks| - 1], blocks[|blocks| - 1];
              var st := Run(k, rules, gen, init);
              && AllAccepted(k, rules, gen, init) && StructureRefusal(st.nodes, x).None?
              && Run(k, rules, gen, blocks) == State(WithBlock(st.nodes, k, x), WithTip(st.tips, x))
  {
    hide Consistent, StructureRefusal, WithBlock, WithTip, Lineages;
  }

  lemma StartStores(gen: Block)
    ensures Stores(Start(gen).nodes, gen, [])
  {
  }

  lemma StoresStep(nodes: Nodes, k: nat, gen: Block, init: seq<Block>, blocks: seq<Block>, x: Block)
    requires Stores(nodes, gen, init) && StructureRefusal(nodes, x).None?
    requires forall y :: y in blocks <==> y in init || y == x
    ensures Stores(WithBlock(nodes, k, x), gen, blocks)
  {
    hide *;
    WithBlockExtends(nodes, k, x);
    NewNode(nodes, k, x);
    StoresMore(nodes, WithBlock(nodes, k, x), gen, init, blocks, x);
  }

  lemma StoresMore(nodes: Nodes, nodes': Nodes, gen: Block, init: seq<Block>, blocks: seq<Block>, x: Block)
    requires Stores(nodes, gen, init) && Extends(nodes, nodes', Id(x)) && nodes'[Id(x)].block == x
    requires forall y :: y in blocks <==> y in init || y == x
    ensures Stores(nodes', gen, blocks)
  {
    hide Id, Extends;
    EntriesOf(nodes, nodes', Id(x));
    forall b | b in nodes' ensures FromList(nodes', gen, blocks, b) {
      if b != Id(x) {
        assert FromList(nodes, gen, init, b);
        StillFrom(nodes, nodes', gen, init, blocks, Id(x), b);
      }
    }
    forall y | y in blocks || y == gen ensures Held(nodes', y) {
      if y == gen || y in init {
        assert Held(nodes, y);
        StillHeld(nodes, nodes', Id(x), y);
      }
    }
  }

  lemma EntriesOf(nodes: Nodes, nodes': Nodes, id: BlockId)
    requires Extends(nodes, nodes', id)
    ensures nodes'.Keys == nodes.Keys + {id} && id !in nodes
  {
  }

  lemma StillFrom(nodes: Nodes, nodes': Nodes, gen: Block, init: seq<Block>, blocks: seq<Block>, id: BlockId,
                  b: BlockId)
    requires && FromList(nodes, gen, init, b) && Extends(nodes, nodes', id) && b in nodes
             && forall y :: y in init ==> y in blocks
    ensures FromList(nodes', gen, blocks, b)
  {
    hide GraphOf;
    assert SameEntry(nodes, nodes', b);
  }

  lemma StillHeld(nodes: Nodes, nodes': Nodes, id: BlockId, y: Block)
    requires Held(nodes, y) && Extends(nodes, nodes', id)
    ensures Held(nodes', y)
  {
    hide GraphOf, Id;
    assert SameEntry(nodes, nodes', Id(y));
  }

  /** The same blocks, accepted in any two orders, leave the same DAG: equal colouring,
      past sizes, children and tips. */
  lemma RunsConverge(k: nat, rules: Rules, rules': Rules, gen: Block, blocks: seq<Block>, blocks': seq<Block>)
    requires AllAccepted(k, rules, gen, blocks) && AllAccepted(k, rules', gen, blocks')
    requires forall x :: x in blocks <==> x in blocks'
    ensures Run(k, rules, gen, blocks) == Run(k, rules', gen, blocks')
  {
    var st, st' := Run(k, rules, gen, blocks), Run(k, rules', gen, blocks');
    RunStores(k, rules, gen, blocks);
    RunStores(k, rules', gen, blocks');
    hide Run, AllAccepted, Lineages, Consistent;
    StoresAgree(st.nodes, st'.nodes, gen, blocks, blocks');
    Convergence(k, Id(gen), st.nodes, st.tips, st'.nodes, st'.tips);
  }

  lemma StoresAgree(nodes: Nodes, nodes': Nodes, gen: Block, blocks: seq<Block>, blocks': seq<Block>)
    requires Stores(nodes, gen, blocks) && Stores(nodes', gen, blocks')
    requires forall x :: x in blocks <==> x in blocks'
    ensures SameBlocks(nodes, nodes')
  {
    hide Id;
    forall b | b in nodes ensures SameBlock(nodes, nodes', b) {
      assert FromList(nodes, gen, blocks, b);
      assert Held(nodes', nodes[b].block);
    }
    forall b | b in nodes' ensures b in nodes {
      assert FromList(nodes', gen, blocks', b);
      assert Held(nodes, nodes'[b].block);
    }
  }
}
