/** Consequences of the consensus invariant: chain selection, convergence, and the
    blue score of uniform work. */
module ChainSelection {
  import opened Types
  import opened Graphs
  import opened Sums
  import opened Ghostdag
  import opened Consensus
  lemma {:induction false} WorkMonotone(nodes: Nodes, s: set<BlockId>, t: set<BlockId>)
    requires s <= t <= nodes.Keys
    ensures WorkOf(nodes, s) <= WorkOf(nodes, t)
    decreases t - s
  {
    assert s * nodes.Keys == s && t * nodes.Keys == t;
    if s != t {
      var x :| x in t && x !in s;
      SumAdd(s, Works(nodes), x);
      WorkMonotone(nodes, s + {x}, t);
      assert (s + {x}) * nodes.Keys == s + {x};
    }
  }

  lemma NodeFacts(k: nat, genesis: BlockId, nodes: Nodes, tips: set<BlockId>, b: BlockId)
    requires Consistent(k, genesis, nodes, tips) && b in nodes
    ensures RootedAt(nodes, genesis, b) && Derived(nodes, k, b) && BlueCluster(nodes, k, b)
    ensures WellFormed(GraphOf(nodes)) && genesis in nodes
  {
  }

  lemma SelectedParentFacts(nodes: Nodes, k: nat, genesis: BlockId, b: BlockId)
    requires RootedAt(nodes, genesis, b) && Derived(nodes, k, b) && BlueCluster(nodes, k, b) && b != genesis
    ensures nodes[b].ghostdag.selectedParent.Some?
    ensures var sp, ps := nodes[b].ghostdag.selectedParent.value, nodes[b].block.parents;
            && sp in nodes && sp in ps && IsHeaviest(nodes, Elements(ps), sp) && Present(nodes, ps)
            && GraphOf(nodes)[b] == ps
            && Blues(nodes, b) == NewBlues(nodes, k, ps, sp) <= nodes.Keys
  {
  }

  /** The selected parent of a non-genesis block and its place in the blue set. */
  lemma BlueBase(k: nat, genesis: BlockId, nodes: Nodes, tips: set<BlockId>, b: BlockId)
    requires Consistent(k, genesis, nodes, tips) && b in nodes && b != genesis
    ensures nodes[b].ghostdag.selectedParent.Some?
    ensures var sp, ps := nodes[b].ghostdag.selectedParent.value, nodes[b].block.parents;
            && sp in nodes && sp in ps && sp in Past(GraphOf(nodes), b)
            && GraphOf(nodes)[b] == ps && Present(nodes, ps)
            && IsHeaviest(nodes, Elements(ps), sp)
            && Blues(nodes, sp) + {sp} <= Blues(nodes, b) <= nodes.Keys && sp !in Blues(nodes, sp)
  {
    NodeFacts(k, genesis, nodes, tips, b);
    SelectedParentFacts(nodes, k, genesis, b);
    var sp, ps := nodes[b].ghostdag.selectedParent.value, nodes[b].block.parents;
    NodeFacts(k, genesis, nodes, tips, sp);
    hide Consistent, Derived, NewBlues, IsHeaviest, RootedAt;
    NewBluesFacts(nodes, k, ps, sp);
    ParentIsAnc(GraphOf(nodes), b, sp);
  }

  lemma SetGrowth(nodes: Nodes, inner: set<BlockId>, sp: BlockId, all: set<BlockId>)
    requires inner + {sp} <= all <= nodes.Keys && sp !in inner
    ensures |all| > |inner| && WorkOf(nodes, all) >= WorkOf(nodes, inner) + nodes[sp].block.work
  {
    var base := inner + {sp};
    SubsetCardinality(base, all);
    WorkMonotone(nodes, base, all);
    assert base * nodes.Keys == base && inner * nodes.Keys == inner;
    SumAdd(inner, Works(nodes), sp);
  }

  /** Score and work grow from a block's selected parent. */
  lemma BluesGrow(k: nat, genesis: BlockId, nodes: Nodes, tips: set<BlockId>, b: BlockId)
    requires Consistent(k, genesis, nodes, tips) && b in nodes && b != genesis
    ensures nodes[b].ghostdag.selectedParent.Some? && nodes[b].ghostdag.selectedParent.value in nodes
    ensures var sp := nodes[b].ghostdag.selectedParent.value;
            && nodes[b].ghostdag.blueScore > nodes[sp].ghostdag.blueScore
            && nodes[b].ghostdag.blueWork >= nodes[sp].ghostdag.blueWork + nodes[sp].block.work
  {
    BlueBase(k, genesis, nodes, tips, b);
    var sp := nodes[b].ghostdag.selectedParent.value;
    NodeFacts(k, genesis, nodes, tips, b);
    NodeFacts(k, genesis, nodes, tips, sp);
    hide Derived, Consistent, IsHeaviest, GraphOf, Past, BlueCluster, RootedAt;
    ScoreAndWork(nodes, k, sp);
    ScoreAndWork(nodes, k, b);
    SetGrowth(nodes, Blues(nodes, sp), sp, Blues(nodes, b));
  }

  /** Blue score is the size of the blue set and blue work its total work. */
  lemma ScoreAndWork(nodes: Nodes, k: nat, b: BlockId)
    requires Derived(nodes, k, b)
    ensures nodes[b].ghostdag.blueScore == |Blues(nodes, b)|
    ensures nodes[b].ghostdag.blueWork == WorkOf(nodes, Blues(nodes, b))
    ensures nodes[b].ghostdag.blueAnticoneSizes == AnticoneSizes(GraphOf(nodes), Blues(nodes, b))
  {
    if nodes[b].ghostdag.selectedParent.None? {
      assert Blues(nodes, b) * nodes.Keys == {};
    } else {
      var sp := nodes[b].ghostdag.selectedParent.value;
      assert Blues(nodes, b) == NewBlues(nodes, k, nodes[b].block.parents, sp);
    }
  }

  /** The recorded anticone sizes: one entry per blue ancestor, each the exact number of
      the block's blues parallel to it, none above `k`. */
  lemma ColouringIsExact(k: nat, genesis: BlockId, nodes: Nodes, tips: set<BlockId>, b: BlockId)
    requires Consistent(k, genesis, nodes, tips) && b in nodes
    ensures var gd, g := nodes[b].ghostdag, GraphOf(nodes);
            && gd.blueAnticoneSizes.Keys <= Past(g, b)
            && gd.blueScore == |gd.blueAnticoneSizes.Keys|
            && gd.blueWork == Sum(gd.blueAnticoneSizes.Keys, Works(nodes))
            && forall x :: x in gd.blueAnticoneSizes ==>
                 && gd.blueAnticoneSizes[x] == |set y | y in gd.blueAnticoneSizes && Parallel(g, x, y)|
                 && gd.blueAnticoneSizes[x] <= k
  {
    NodeFacts(k, genesis, nodes, tips, b);
    ScoreAndWork(nodes, k, b);
    var gd, g, blues := nodes[b].ghostdag, GraphOf(nodes), Blues(nodes, b);
    assert blues * nodes.Keys == blues;
    forall x | x in blues
      ensures gd.blueAnticoneSizes[x] == |set y | y in gd.blueAnticoneSizes && Parallel(g, x, y)| <= k
    {
      assert Anti(g, x, blues) == set y | y in gd.blueAnticoneSizes && Parallel(g, x, y);
    }
  }

  /** The chain key strictly increases along every parent edge. */
  lemma KeyGrows(k: nat, genesis: BlockId, nodes: Nodes, tips: set<BlockId>, q: BlockId, b: BlockId)
    requires Consistent(k, genesis, nodes, tips) && b in nodes && q in GraphOf(nodes)[b]
    ensures q in nodes && KeyLess(ChainKey(nodes, q), ChainKey(nodes, b))
  {
    NodeFacts(k, genesis, nodes, tips, b);
    BlueBase(k, genesis, nodes, tips, b);
    BluesGrow(k, genesis, nodes, tips, b);
    assert Heavier(nodes, nodes[b].ghostdag.selectedParent.value, q);
  }

  lemma {:induction false} KeyGrowsAlongPast(k: nat, genesis: BlockId, nodes: Nodes, tips: set<BlockId>, a: BlockId,
                                             b: BlockId)
    requires Consistent(k, genesis, nodes, tips) && b in nodes && a in Past(GraphOf(nodes), b)
    ensures a in nodes && KeyLess(ChainKey(nodes, a), ChainKey(nodes, b))
    decreases |Past(GraphOf(nodes), b)|
  {
    var g := GraphOf(nodes);
    AncUnfold(g, a, b);
    var q :| q in g[b] && (a == q || Anc(g, a, q));
    KeyGrows(k, genesis, nodes, tips, q, b);
    if a != q {
      ParentIsAnc(g, b, q);
      PastShrinks(g, q, b);
      KeyGrowsAlongPast(k, genesis, nodes, tips, a, q);
    }
  }

  lemma {:induction false} HeaviestExists(nodes: Nodes, among: set<BlockId>) returns (m: BlockId)
    requires among != {} && among <= nodes.Keys
    ensures IsHeaviest(nodes, among, m)
    decreases among
  {
    var x :| x in among;
    if among == {x} {
      m := x;
    } else {
      m := HeaviestExists(nodes, among - {x});
      var m0 := m;
      if KeyLess(ChainKey(nodes, m), ChainKey(nodes, x)) {
        m := x;
      }
      forall p | p in among ensures Heavier(nodes, m, p) {
        if p != x {
          assert Heavier(nodes, m0, p);
        }
      }
    }
  }

  lemma SomeHeaviest(nodes: Nodes)
    requires nodes != map[]
    ensures exists m :: IsHeaviest(nodes, nodes.Keys, m)
  {
    var m := HeaviestExists(nodes, nodes.Keys);
  }

  /** The heaviest block of all: the selected tip. */
  ghost function HeaviestBlock(nodes: Nodes): (m: BlockId)
    requires nodes != map[]
    ensures IsHeaviest(nodes, nodes.Keys, m) && m in nodes
  {
    SomeHeaviest(nodes);
    var m :| IsHeaviest(nodes, nodes.Keys, m);
    m
  }

  lemma AboveParent(g: Graph, b: BlockId, t: BlockId, c: BlockId)
    requires b in g && c in g && t in g[c] && b in PastEq(g, t)
    ensures b in PastEq(g, c)
  {
    ParentIsAnc(g, c, t);
    if b != t {
      AncTransitive(g, b, t, c);
    }
  }

  lemma NotHeavier(nodes: Nodes, among: set<BlockId>, t: BlockId, c: BlockId)
    requires IsHeaviest(nodes, among, t) && c in among
    ensures c in nodes && t in nodes && !KeyLess(ChainKey(nodes, t), ChainKey(nodes, c))
  {
    assert Heavier(nodes, t, c);
  }

  /** Every block is at or below some tip. */
  lemma TipAbove(k: nat, genesis: BlockId, nodes: Nodes, tips: set<BlockId>, b: BlockId) returns (t: BlockId)
    requires Consistent(k, genesis, nodes, tips) && b in nodes
    ensures t in tips && t in nodes && b in PastEq(GraphOf(nodes), t)
  {
    var g := GraphOf(nodes);
    var above := set x | x in nodes && b in PastEq(g, x);
    assert b in above;
    t := HeaviestExists(nodes, above);
    forall c | c in nodes ensures t !in g[c] {
      if t in g[c] {
        KeyGrows(k, genesis, nodes, tips, t, c);
        AboveParent(g, b, t, c);
        NotHeavier(nodes, above, t, c);
      }
    }
    assert IsTip(nodes, t);
  }

  /** The heaviest tip is the heaviest block of the whole DAG. */
  lemma TipIsHeaviest(k: nat, genesis: BlockId, nodes: Nodes, tips: set<BlockId>, tip: BlockId)
    requires Consistent(k, genesis, nodes, tips) && IsHeaviest(nodes, tips, tip)
    ensures IsHeaviest(nodes, nodes.Keys, tip)
  {
    forall b | b in nodes ensures Heavier(nodes, tip, b) {
      var t := TipAbove(k, genesis, nodes, tips, b);
      assert Heavier(nodes, tip, t);
      if b != t {
        KeyGrowsAlongPast(k, genesis, nodes, tips, b, t);
      }
    }
    assert Heavier(nodes, tip, tip);
  }

  /** An insert keeps the selected tip or moves it to the new block. */
  lemma TipMovesOnlyToNew(k: nat, genesis: BlockId, nodes: Nodes, tips: set<BlockId>, tip: BlockId, nodes': Nodes,
                          tips': set<BlockId>, tip': BlockId, id: BlockId)
    requires Consistent(k, genesis, nodes, tips) && IsHeaviest(nodes, tips, tip)
    requires Consistent(k, genesis, nodes', tips') && IsHeaviest(nodes', tips', tip')
    requires Extends(nodes, nodes', id) && tip in nodes
    ensures tip' == tip || tip' == id
    ensures tip' == id <==> KeyLess(ChainKey(nodes, tip), ChainKey(nodes', id))
  {
    TipIsHeaviest(k, genesis, nodes, tips, tip);
    TipIsHeaviest(k, genesis, nodes', tips', tip');
    assert SameEntry(nodes, nodes', tip);
    assert Heavier(nodes', tip', tip) && Heavier(nodes', tip', id);
    if tip' != id {
      assert SameEntry(nodes, nodes', tip') && Heavier(nodes, tip, tip');
    }
  }

  // ------------------------------------------------------------------
  // Convergence

  ghost predicate SameBlock(nodes: Nodes, nodes': Nodes, b: BlockId) {
    b in nodes && b in nodes' && nodes'[b].block == nodes[b].block
  }

  ghost predicate SameBlocks(nodes: Nodes, nodes': Nodes) {
    && nodes.Keys == nodes'.Keys
    && forall b {:trigger SameBlock(nodes, nodes', b)} :: b in nodes ==> SameBlock(nodes, nodes', b)
  }

  lemma SameGraph(k: nat, genesis: BlockId, nodes: Nodes, tips: set<BlockId>, nodes': Nodes, tips': set<BlockId>)
    requires Consistent(k, genesis, nodes, tips) && Consistent(k, genesis, nodes', tips') && SameBlocks(nodes, nodes')
    ensures GraphOf(nodes') == GraphOf(nodes)
  {
    var g, h := GraphOf(nodes), GraphOf(nodes');
    forall b | b in nodes ensures h[b] == g[b] {
      assert RootedAt(nodes, genesis, b) && RootedAt(nodes', genesis, b) && SameBlock(nodes, nodes', b);
    }
  }

  /** Derived data is a function of the blocks below, however they arrived. */
  lemma {:induction false} ConvergeAt(k: nat, genesis: BlockId, nodes: Nodes, tips: set<BlockId>, nodes': Nodes,
                                      tips': set<BlockId>, b: BlockId)
    requires Consistent(k, genesis, nodes, tips) && Consistent(k, genesis, nodes', tips') && SameBlocks(nodes, nodes')
    requires b in nodes
    ensures AgreeAt(nodes, nodes', b)
    decreases |Past(GraphOf(nodes), b)|
  {
    var g := GraphOf(nodes);
    SameGraph(k, genesis, nodes, tips, nodes', tips');
    NodeFacts(k, genesis, nodes, tips, b);
    NodeFacts(k, genesis, nodes', tips', b);
    assert SameBlock(nodes, nodes', b);
    if b != genesis {
      var of := Past(g, b);
      forall x | x in of ensures AgreeAt(nodes, nodes', x) {
        PastShrinks(g, x, b);
        ConvergeAt(k, genesis, nodes, tips, nodes', tips', x);
      }
      forall x | x in of ensures Past(g, x) <= of {
        PastSubset(g, x, b);
      }
      hide Consistent;
      ConvergeFromPast(k, genesis, nodes, nodes', b);
    } else {
      hide Consistent;
      assert nodes[b].ghostdag == GENESIS_DATA && nodes'[b].ghostdag == GENESIS_DATA;
    }
  }

  lemma ConvergeFromPast(k: nat, genesis: BlockId, nodes: Nodes, nodes': Nodes, b: BlockId)
    requires GraphOf(nodes') == GraphOf(nodes) && b in nodes && b in nodes' && nodes'[b].block == nodes[b].block
    requires RootedAt(nodes, genesis, b) && RootedAt(nodes', genesis, b) && b != genesis
    requires Derived(nodes, k, b) && Derived(nodes', k, b) && WellFormed(GraphOf(nodes))
    requires forall x {:trigger BlueCluster(nodes, k, x)} :: x in Past(GraphOf(nodes), b) ==> BlueCluster(nodes, k, x)
    requires Agree(nodes, nodes', Past(GraphOf(nodes), b)) && PastClosed(nodes, Past(GraphOf(nodes), b))
    ensures AgreeAt(nodes, nodes', b)
  {
    var g := GraphOf(nodes);
    var of, ps := Past(g, b), nodes[b].block.parents;
    var sp, sp' := nodes[b].ghostdag.selectedParent.value, nodes'[b].ghostdag.selectedParent.value;
    assert g[b] == ps;
    forall p | p in ps ensures p in of {
      ParentIsAnc(g, b, p);
    }
    AgreeHeaviest(nodes, nodes', of, Elements(ps), sp');
    HeaviestUnique(nodes, Elements(ps), sp, sp');
    assert BlueCluster(nodes, k, sp);
    AgreeDerive(nodes, nodes', k, of, ps, sp);
  }

  /** Two nodes holding the same blocks hold identical consensus data and tips,
      whatever parents-first order the blocks came in. */
  lemma Convergence(k: nat, genesis: BlockId, nodes: Nodes, tips: set<BlockId>, nodes': Nodes, tips': set<BlockId>)
    requires Consistent(k, genesis, nodes, tips) && Consistent(k, genesis, nodes', tips') && SameBlocks(nodes, nodes')
    ensures nodes' == nodes && tips' == tips
  {
    SameGraph(k, genesis, nodes, tips, nodes', tips');
    forall b | b in nodes ensures nodes'[b] == nodes[b] {
      ConvergeAt(k, genesis, nodes, tips, nodes', tips', b);
      assert ChildrenKnown(nodes, b) && ChildrenKnown(nodes', b);
    }
    forall b ensures b in tips' <==> b in tips {
      assert b in tips <==> IsTip(nodes, b);
      assert b in tips' <==> IsTip(nodes', b);
    }
  }

  // ------------------------------------------------------------------
  // Uniform work

  ghost predicate WorkIs(nodes: Nodes, genesis: BlockId, w: nat, b: BlockId) {
    b in nodes && (b != genesis ==> nodes[b].block.work == w)
  }

  ghost predicate UniformWork(nodes: Nodes, genesis: BlockId, w: nat) {
    genesis in nodes && forall b {:trigger WorkIs(nodes, genesis, w, b)} :: b in nodes ==> WorkIs(nodes, genesis, w, b)
  }

  lemma {:induction false} GenesisIsBlue(k: nat, genesis: BlockId, nodes: Nodes, tips: set<BlockId>, b: BlockId)
    requires Consistent(k, genesis, nodes, tips) && b in nodes && b != genesis
    ensures genesis in Blues(nodes, b)
    decreases |Past(GraphOf(nodes), b)|
  {
    BlueBase(k, genesis, nodes, tips, b);
    var sp := nodes[b].ghostdag.selectedParent.value;
    if sp != genesis {
      PastShrinks(GraphOf(nodes), sp, b);
      GenesisIsBlue(k, genesis, nodes, tips, sp);
    }
  }

  /** With uniform work, blue work is an increasing linear function of blue score. */
  lemma UniformBlueWork(k: nat, genesis: BlockId, nodes: Nodes, tips: set<BlockId>, w: nat, b: BlockId)
    requires Consistent(k, genesis, nodes, tips) && UniformWork(nodes, genesis, w) && b in nodes && b != genesis
    ensures nodes[b].ghostdag.blueScore >= 1
    ensures nodes[b].ghostdag.blueWork == nodes[genesis].block.work + w * (nodes[b].ghostdag.blueScore - 1)
  {
    hide *;
    GenesisIsBlue(k, genesis, nodes, tips, b);
    BlueBase(k, genesis, nodes, tips, b);
    NodeFacts(k, genesis, nodes, tips, b);
    ScoreAndWork(nodes, k, b);
    UniformSum(nodes, genesis, w, Blues(nodes, b));
  }

  lemma UniformSum(nodes: Nodes, genesis: BlockId, w: nat, blues: set<BlockId>)
    requires UniformWork(nodes, genesis, w) && genesis in blues && blues <= nodes.Keys
    ensures |blues| >= 1 && WorkOf(nodes, blues) == nodes[genesis].block.work + w * (|blues| - 1)
  {
    assert blues * nodes.Keys == blues;
    SumRemove(blues, Works(nodes), genesis);
    var rest := blues - {genesis};
    forall x | x in rest ensures Works(nodes)[x] == w {
      assert WorkIs(nodes, genesis, w, x);
    }
    SumConstant(rest, Works(nodes), w);
    assert |rest| == |blues| - 1;
  }

  /** With uniform work the heavier of two blocks never has the lower blue score. */
  lemma HeavierMeansHigher(k: nat, genesis: BlockId, nodes: Nodes, tips: set<BlockId>, w: nat, a: BlockId, b: BlockId)
    requires Consistent(k, genesis, nodes, tips) && UniformWork(nodes, genesis, w) && Heavier(nodes, a, b)
    ensures nodes[a].ghostdag.blueScore >= nodes[b].ghostdag.blueScore
  {
    NodeFacts(k, genesis, nodes, tips, genesis);
    assert nodes[genesis].ghostdag == GENESIS_DATA;
    if b != genesis {
      UniformBlueWork(k, genesis, nodes, tips, w, b);
      if a != genesis {
        UniformBlueWork(k, genesis, nodes, tips, w, a);
        var x, y := nodes[a].ghostdag.blueScore - 1, nodes[b].ghostdag.blueScore - 1;
        if x < y {
          MulGap(w, x, y);
        }
      }
    }
  }

  lemma MulGap(w: nat, x: nat, y: nat)
    requires x < y
    ensures w * x <= w * y && (w > 0 ==> w * x < w * y)
  {
  }
}
