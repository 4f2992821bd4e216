/** Future-covering sets: what they must say about the DAG, independently of labels. */
module Coverage {
  import opened Types
  import opened Graphs
  import opened Trees

  type Covers = map<BlockId, seq<BlockId>>

  /** `b` is at or below `a` in the tree, or at or below a member of `a`'s covering set. */
  ghost predicate Covered(fcs: Covers, chain: Chains, a: BlockId, b: BlockId) {
    || TreeReach(chain, a, b)
    || (a in fcs && exists c :: c in fcs[a] && TreeReach(chain, c, b))
  }

  ghost predicate Exact(g: Graph, fcs: Covers, chain: Chains, a: BlockId, b: BlockId) {
    a != b ==> (a in Past(g, b) <==> Covered(fcs, chain, a, b))
  }

  ghost predicate MembersPresent(fcs: Covers, chain: Chains, a: BlockId) {
    a in fcs ==> a in chain && forall c :: c in fcs[a] ==> c in chain
  }

  /** The covering sets together with the tree answer every ancestry question. */
  ghost predicate CoversAll(g: Graph, fcs: Covers, chain: Chains) {
    && (forall a {:trigger MembersPresent(fcs, chain, a)} :: MembersPresent(fcs, chain, a))
    && (forall a, b {:trigger Exact(g, fcs, chain, a, b)} :: a in g && b in g ==> Exact(g, fcs, chain, a, b))
  }

  /** Tree edges are DAG edges. */
  ghost predicate TreeEdge(g: Graph, tp: Parents, y: BlockId) {
    y in tp && y in g && tp[y] in g[y]
  }

  ghost predicate Embedded(g: Graph, tp: Parents, chain: Chains) {
    && g.Keys == chain.Keys
    && forall y {:trigger TreeEdge(g, tp, y)} :: y in tp ==> TreeEdge(g, tp, y)
  }

  /** Tree ancestors are DAG ancestors. */
  lemma {:induction false} ReachIsPast(g: Graph, tp: Parents, root: BlockId, chain: Chains, x: BlockId, y: BlockId)
    requires WellFormed(g) && IsTree(tp, root, chain) && Embedded(g, tp, chain) && TreeReach(chain, x, y)
    ensures x in PastEq(g, y)
    decreases |chain[y]|
  {
    if x != y {
      StepUp(tp, root, chain, x, y);
      assert TreeEdge(g, tp, y);
      ReachIsPast(g, tp, root, chain, x, tp[y]);
      ParentIsAnc(g, y, tp[y]);
      assert tp[y] in Past(g, y);
      PastSubset(g, tp[y], y);
    }
  }

  /** How the covering set of one merged block may change when leaf `id` arrives:
      the leaf becomes covered and only entries below the leaf are dropped. */
  ghost predicate CoverStep(chain: Chains, before: seq<BlockId>, after: seq<BlockId>, id: BlockId) {
    && (forall c :: c in after ==> c in before || c == id)
    && (forall c :: c in before ==> c in after || TreeReach(chain, id, c))
    && (exists c :: c in after && TreeReach(chain, c, id))
  }

  ghost function CoverOf(fcs: Covers, a: BlockId): seq<BlockId> {
    if a in fcs then fcs[a] else []
  }

  ghost predicate FcsStep(fcs: Covers, fcs': Covers, chain: Chains, merged: set<BlockId>, id: BlockId, a: BlockId) {
    if a in merged then a in fcs' && CoverStep(chain, CoverOf(fcs, a), fcs'[a], id)
    else (a in fcs' <==> a in fcs) && CoverOf(fcs', a) == CoverOf(fcs, a)
  }

  /** Adding a leaf below `sp` changes reachability only for the leaf itself. */
  lemma LeafReach(tp: Parents, root: BlockId, chain: Chains, id: BlockId, sp: BlockId)
    requires IsTree(tp, root, chain) && id !in chain && sp in chain
    ensures IsTree(tp[id := sp], root, chain[id := chain[sp] + [id]])
    ensures forall x, y {:trigger TreeReach(chain[id := chain[sp] + [id]], x, y)} :: y != id ==>
              (TreeReach(chain[id := chain[sp] + [id]], x, y) <==> TreeReach(chain, x, y))
    ensures forall x {:trigger TreeReach(chain[id := chain[sp] + [id]], x, id)} ::
              TreeReach(chain[id := chain[sp] + [id]], x, id) <==> x == id || TreeReach(chain, x, sp)
  {
    LeafTree(tp, root, chain, id, sp);
  }

  /** The leaf is nobody's tree ancestor but its own. */
  lemma LeafCoversNothing(tp: Parents, root: BlockId, chain: Chains, id: BlockId, y: BlockId)
    requires IsTree(tp, root, chain) && id !in chain
    ensures !TreeReach(chain, id, y)
  {
    if TreeReach(chain, id, y) {
      ChainPrefix(tp, root, chain, id, y);
    }
  }

  lemma CoveredBefore(fcs: Covers, fcs': Covers, tp: Parents, root: BlockId, chain: Chains, chain': Chains, id: BlockId,
                      sp: BlockId, merged: set<BlockId>, a: BlockId, b: BlockId)
    requires IsTree(tp, root, chain) && id !in chain && sp in chain && chain' == chain[id := chain[sp] + [id]]
    requires FcsStep(fcs, fcs', chain', merged, id, a) && b in chain && MembersPresent(fcs, chain, a)
    ensures Covered(fcs', chain', a, b) <==> Covered(fcs, chain, a, b)
  {
    LeafReach(tp, root, chain, id, sp);
    LeafCoversNothing(tp, root, chain, id, b);
    if a in merged {
      forall c | c in CoverOf(fcs, a) ensures c in fcs'[a] {
        LeafCoversNothing(tp, root, chain, id, c);
      }
    }
    if Covered(fcs', chain', a, b) && !TreeReach(chain, a, b) {
      var c :| c in fcs'[a] && TreeReach(chain', c, b);
      assert c in CoverOf(fcs, a) && TreeReach(chain, c, b);
    }
    if Covered(fcs, chain, a, b) && !TreeReach(chain, a, b) {
      var c :| c in fcs[a] && TreeReach(chain, c, b);
      assert c in fcs'[a] && TreeReach(chain', c, b);
    }
  }

  /** The new leaf is covered from exactly its past. Blocks above the selected parent
      already reach it through the tree or through an old entry covering that parent. */
  lemma CoveredLeaf(g: Graph, fcs: Covers, fcs': Covers, tp: Parents, root: BlockId, chain: Chains, chain': Chains,
                    id: BlockId, sp: BlockId, merged: set<BlockId>, past: set<BlockId>, a: BlockId)
    requires IsTree(tp, root, chain) && id !in chain && sp in chain && chain' == chain[id := chain[sp] + [id]]
    requires FcsStep(fcs, fcs', chain', merged, id, a) && CoversAll(g, fcs, chain) && g.Keys == chain.Keys
    requires a in g && past == PastEq(g, sp) + merged && merged !! PastEq(g, sp)
    ensures a in past <==> Covered(fcs', chain', a, id)
  {
    LeafReach(tp, root, chain, id, sp);
    RootAboveAll(tp, root, chain, sp);
    assert Exact(g, fcs, chain, a, sp) && MembersPresent(fcs, chain, a);
    if a in merged {
      var c :| c in fcs'[a] && TreeReach(chain', c, id);
      assert Covered(fcs', chain', a, id);
    } else if Covered(fcs', chain', a, id) && !TreeReach(chain', a, id) {
      var c :| c in fcs'[a] && TreeReach(chain', c, id);
      assert c in fcs[a] && TreeReach(chain, c, sp);
      assert Covered(fcs, chain, a, sp);
    }
  }

  /** Folding a leaf in keeps every ancestry answer exact, although only the direct
      members of its mergeset have their covering sets touched. */
  lemma CoverageStep(g: Graph, ps: seq<BlockId>, fcs: Covers, fcs': Covers, tp: Parents, root: BlockId, chain: Chains,
                     chain': Chains, id: BlockId, sp: BlockId, merged: set<BlockId>)
    requires WellFormed(g) && id !in g && (forall p :: p in ps ==> p in g)
    requires IsTree(tp, root, chain) && g.Keys == chain.Keys && sp in chain
    requires chain' == chain[id := chain[sp] + [id]]
    requires CoversAll(g, fcs, chain)
    requires PastOf(g, ps) == PastEq(g, sp) + merged && merged !! PastEq(g, sp)
    requires forall a {:trigger FcsStep(fcs, fcs', chain', merged, id, a)} :: FcsStep(fcs, fcs', chain', merged, id, a)
    ensures CoversAll(g[id := ps], fcs', chain')
  {
    var g' := g[id := ps];
    AppendLeaf(g, id, ps);
    hide Past, Covered, TreeReach;
    forall a ensures MembersPresent(fcs', chain', a) {
      assert FcsStep(fcs, fcs', chain', merged, id, a) && MembersPresent(fcs, chain, a);
      assert a in merged ==> a in PastOf(g, ps);
    }
    forall a, b | a in g' && b in g' ensures Exact(g', fcs', chain', a, b) {
      assert FcsStep(fcs, fcs', chain', merged, id, a) && MembersPresent(fcs, chain, a);
      if b != id {
        CoveredBefore(fcs, fcs', tp, root, chain, chain', id, sp, merged, a, b);
        if a == id {
          LeafUncovered(fcs, tp, root, chain, id, b);
          assert a !in Past(g, b) by { PastInside(g, a, b); }
        } else {
          assert Exact(g, fcs, chain, a, b);
        }
      } else if a != id {
        CoveredLeaf(g, fcs, fcs', tp, root, chain, chain', id, sp, merged, PastOf(g, ps), a);
      }
    }
  }

  lemma PastInside(g: Graph, a: BlockId, b: BlockId)
    requires a !in g
    ensures a !in Past(g, b)
  {
  }

  lemma LeafUncovered(fcs: Covers, tp: Parents, root: BlockId, chain: Chains, id: BlockId, b: BlockId)
    requires IsTree(tp, root, chain) && id !in chain && MembersPresent(fcs, chain, id)
    ensures !Covered(fcs, chain, id, b)
  {
    LeafCoversNothing(tp, root, chain, id, b);
  }
}
