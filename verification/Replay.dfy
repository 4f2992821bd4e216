/** Replaying the blocks of a DAG, parents first, rebuilds the same DAG. */
module Replay {
  import opened Types
  import opened Graphs
  import opened Blocks
  import opened Ghostdag
  import opened Consensus
  import opened ChainSelection
  import opened Order
  import opened Acceptance

  /** The blocks of an order. */
  ghost function BlocksIn(nodes: Nodes, order: seq<BlockId>): (s: seq<Block>)
    requires forall b :: b in order ==> b in nodes
    ensures |s| == |order| && forall i {:trigger s[i]} :: 0 <= i < |order| ==> s[i] == nodes[order[i]].block
  {
    seq(|order|, i requires 0 <= i < |order| => nodes[order[i]].block)
  }

  /** Rules that refuse no block of the DAG. */
  ghost predicate Permissive(rules: Rules, nodes: Nodes) {
    && rules.difficulty.None? && !rules.requirePow
    && (rules.validator.Some? ==>
          forall b {:trigger nodes[b]} :: b in nodes ==> rules.validator.value(nodes[b].block).None?)
  }

  /** Only genesis has no parents, so it comes first. */
  lemma GenesisFirst(k: nat, genesis: BlockId, nodes: Nodes, tips: set<BlockId>, order: seq<BlockId>)
    requires Consistent(k, genesis, nodes, tips) && Topological(GraphOf(nodes), order) && Elements(order) == nodes.Keys
    ensures order != [] && order[0] == genesis
    ensures forall i :: 0 < i < |order| ==> order[i] != genesis
  {
    assert genesis in Elements(order);
    assert ParentsBefore(GraphOf(nodes), order, 0);
    var b := order[0];
    assert order[..0] == [];
    if b != genesis {
      BlueBase(k, genesis, nodes, tips, b);
    }
  }

  /** The blocks up to position `i` have been accepted, and are what is stored. */
  ghost predicate Replayed(k: nat, rules: Rules, nodes: Nodes, order: seq<BlockId>, log: seq<Block>, i: nat) {
    && 0 < |log| == |order| && i < |log|
    && AllAccepted(k, rules, log[0], log[1..i + 1])
    && Run(k, rules, log[0], log[1..i + 1]).nodes.Keys == Elements(order[..i + 1])
  }

  lemma ReplayStarts(k: nat, rules: Rules, nodes: Nodes, order: seq<BlockId>, log: seq<Block>)
    requires 0 < |log| == |order| && Id(log[0]) == order[0]
    ensures Replayed(k, rules, nodes, order, log, 0)
  {
    assert log[1..1] == [];
    assert order[..1] == [order[0]];
    StartIds(log[0]);
    assert Elements(order[..1]) == {order[0]};
    RunEmpty(k, rules, log[0]);
  }

  lemma RunEmpty(k: nat, rules: Rules, gen: Block)
    ensures AllAccepted(k, rules, gen, []) && Run(k, rules, gen, []) == Start(gen)
  {
  }

  lemma StartIds(gen: Block)
    ensures Start(gen).nodes.Keys == {Id(gen)}
  {
  }

  /** The next block of a topological order is accepted. */
  lemma ReplayStep(k: nat, genesis: BlockId, nodes: Nodes, tips: set<BlockId>, rules: Rules, order: seq<BlockId>,
                   log: seq<Block>, i: nat)
    requires Consistent(k, genesis, nodes, tips) && Identified(nodes) && Permissive(rules, nodes)
    requires Topological(GraphOf(nodes), order) && Elements(order) == nodes.Keys
    requires forall b :: b in order ==> b in nodes
    requires log == BlocksIn(nodes, order) && i + 1 < |log| && Replayed(k, rules, nodes, order, log, i)
    ensures Replayed(k, rules, nodes, order, log, i + 1)
  {
    assert Run(k, rules, log[0], log[1..i + 1]).nodes.Keys == Elements(order[..i + 1]);
    hide *;
    LogEntry(k, genesis, nodes, tips, order, log, i + 1);
    var st := Run(k, rules, log[0], log[1..i + 1]);
    NextAccepted(nodes, rules, order, i, st.nodes, log[i + 1], order[i + 1]);
    ReplayedNext(k, rules, nodes, order, log, i);
  }

  /** A later block of the log: stored under its own id, with its parents listed before it. */
  lemma LogEntry(k: nat, genesis: BlockId, nodes: Nodes, tips: set<BlockId>, order: seq<BlockId>, log: seq<Block>,
                 i: nat)
    requires Consistent(k, genesis, nodes, tips) && Identified(nodes)
    requires Topological(GraphOf(nodes), order) && Elements(order) == nodes.Keys
    requires forall b :: b in order ==> b in nodes
    requires log == BlocksIn(nodes, order) && 0 < i < |log|
    ensures order[i] in nodes && log[i] == nodes[order[i]].block && Id(log[i]) == order[i] && Distinct(order)
    ensures log[i].parents != [] && forall p :: p in log[i].parents ==> p in order[..i]
  {
    GenesisFirst(k, genesis, nodes, tips, order);
    BlueBase(k, genesis, nodes, tips, order[i]);
    assert OwnId(nodes, order[i]);
    assert ParentsBefore(GraphOf(nodes), order, i);
    hide Consistent, Id;
  }

  lemma ReplayedNext(k: nat, rules: Rules, nodes: Nodes, order: seq<BlockId>, log: seq<Block>, i: nat)
    requires i + 1 < |log| && Replayed(k, rules, nodes, order, log, i) && Id(log[i + 1]) == order[i + 1]
    requires Refusal(Run(k, rules, log[0], log[1..i + 1]).nodes, rules, log[i + 1]).None?
    ensures Replayed(k, rules, nodes, order, log, i + 1)
  {
    hide Run, AllAccepted, Refusal, WithBlock, StructureRefusal, Id;
    var st, front := Run(k, rules, log[0], log[1..i + 1]), log[1..i + 2];
    assert front[..|front| - 1] == log[1..i + 1] && front[|front| - 1] == log[i + 1];
    assert order[..i + 2] == order[..i + 1] + [order[i + 1]];
    Snoc(order[..i + 1], order[i + 1]);
    RunGrows(k, rules, log[0], front);
    NewNode(st.nodes, k, log[i + 1]);
  }

  lemma RunGrows(k: nat, rules: Rules, gen: Block, blocks: seq<Block>)
    requires blocks != []
    requires var init, x := blocks[..|blocks| - 1], blocks[|blocks| - 1];
             AllAccepted(k, rules, gen, init) && Refusal(Run(k, rules, gen, init).nodes, rules, x).None?
    ensures AllAccepted(k, rules, gen, blocks)
    ensures var st := Run(k, rules, gen, blocks[..|blocks| - 1]);
            && StructureRefusal(st.nodes, blocks[|blocks| - 1]).None?
            && Run(k, rules, gen, blocks).nodes == WithBlock(st.nodes, k, blocks[|blocks| - 1])
  {
    hide Refusal, WithBlock, WithTip, StructureRefusal, Consistent, Lineages;
    RunUnfold(k, rules, gen, blocks);
  }

  lemma NextAccepted(nodes: Nodes, rules: Rules, order: seq<BlockId>, i: nat, stored: Nodes, x: Block, b: BlockId)
    requires Lineages(stored) && Permissive(rules, nodes) && i + 1 < |order| && Distinct(order)
    requires && stored.Keys == Elements(order[..i + 1]) && b == order[i + 1] && b in nodes && x == nodes[b].block
             && Id(x) == b
    requires x.parents != [] && forall p :: p in x.parents ==> p in order[..i + 1]
    ensures Refusal(stored, rules, x).None?
  {
    hide Id, Lineages;
    assert b !in order[..i + 1];
    forall p | p in x.parents ensures p in stored {
      assert p in Elements(order[..i + 1]);
    }
    assert StructureRefusal(stored, x).None?;
  }

  lemma {:induction false} ReplayAll(k: nat, genesis: BlockId, nodes: Nodes, tips: set<BlockId>, rules: Rules,
                                     order: seq<BlockId>, log: seq<Block>, i: nat)
    requires Consistent(k, genesis, nodes, tips) && Identified(nodes) && Permissive(rules, nodes)
    requires Topological(GraphOf(nodes), order) && Elements(order) == nodes.Keys
    requires forall b :: b in order ==> b in nodes
    requires log == BlocksIn(nodes, order) && i < |log|
    ensures Replayed(k, rules, nodes, order, log, i)
  {
    hide *;
    if i == 0 {
      FirstEntry(nodes, order, log);
      ReplayStarts(k, rules, nodes, order, log);
    } else {
      ReplayAll(k, genesis, nodes, tips, rules, order, log, i - 1);
      ReplayStep(k, genesis, nodes, tips, rules, order, log, i - 1);
    }
  }

  /** Inserting the blocks of a DAG again, in any order that puts parents first, accepts
      every one of them and ends in the very same DAG. */
  lemma ReplayRebuilds(k: nat, genesis: BlockId, nodes: Nodes, tips: set<BlockId>, rules: Rules, order: seq<BlockId>)
    requires Consistent(k, genesis, nodes, tips) && Identified(nodes) && Permissive(rules, nodes)
    requires Topological(GraphOf(nodes), order) && Elements(order) == nodes.Keys
    ensures order != [] && order[0] == genesis && forall b :: b in order ==> b in nodes
    ensures var log := BlocksIn(nodes, order);
            && AllAccepted(k, rules, log[0], log[1..])
            && Run(k, rules, log[0], log[1..]) == State(nodes, tips)
  {
    hide *;
    GenesisFirst(k, genesis, nodes, tips, order);
    AllStored(nodes, order);
    var log := BlocksIn(nodes, order);
    ReplayAll(k, genesis, nodes, tips, rules, order, log, |log| - 1);
    ReplayedWhole(k, rules, nodes, order, log);
    var st := Run(k, rules, log[0], log[1..]);
    RunStores(k, rules, log[0], log[1..]);
    FirstEntry(nodes, order, log);
    LogSame(nodes, st.nodes, order, log);
    Convergence(k, genesis, nodes, tips, st.nodes, st.tips);
  }

  lemma FirstEntry(nodes: Nodes, order: seq<BlockId>, log: seq<Block>)
    requires Identified(nodes) && (forall b :: b in order ==> b in nodes) && log == BlocksIn(nodes, order) && log != []
    ensures Id(log[0]) == order[0]
  {
    assert OwnId(nodes, order[0]);
  }

  lemma AllStored(nodes: Nodes, order: seq<BlockId>)
    requires Elements(order) == nodes.Keys
    ensures forall b :: b in order ==> b in nodes
  {
    assert forall b :: b in order ==> b in Elements(order);
  }

  lemma ReplayedWhole(k: nat, rules: Rules, nodes: Nodes, order: seq<BlockId>, log: seq<Block>)
    requires log != [] && Replayed(k, rules, nodes, order, log, |log| - 1)
    ensures AllAccepted(k, rules, log[0], log[1..])
    ensures Run(k, rules, log[0], log[1..]).nodes.Keys == Elements(order)
  {
    hide Run, AllAccepted;
    assert log[1..|log|] == log[1..] && order[..|order|] == order;
  }

  lemma LogSame(nodes: Nodes, nodes': Nodes, order: seq<BlockId>, log: seq<Block>)
    requires Identified(nodes) && (forall b :: b in order ==> b in nodes) && log == BlocksIn(nodes, order) && log != []
    requires nodes'.Keys == nodes.Keys && Stores(nodes', log[0], log[1..])
    ensures SameBlocks(nodes, nodes')
  {
    hide Id;
    forall b | b in nodes ensures SameBlock(nodes, nodes', b) {
      assert FromList(nodes', log[0], log[1..], b);
      FromLog(nodes, order, log, nodes'[b].block);
    }
  }

  /** A block of the log is the stored block of its own id. */
  lemma FromLog(nodes: Nodes, order: seq<BlockId>, log: seq<Block>, x: Block)
    requires Identified(nodes) && (forall b :: b in order ==> b in nodes) && log == BlocksIn(nodes, order) && log != []
    requires x == log[0] || x in log[1..]
    ensures Id(x) in nodes && nodes[Id(x)].block == x
  {
    var i :| 0 <= i < |log| && log[i] == x;
    assert OwnId(nodes, order[i]);
  }
}
