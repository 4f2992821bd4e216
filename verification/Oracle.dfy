/** The incremental reachability oracle: an interval-labelled selected-parent tree and
    a future-covering set per block. */
module Oracle {
  import opened Types
  import opened Graphs
  import opened Trees
  import opened Layout
  import opened Coverage
  import opened Ghostdag
  import opened Consensus
  import opened Order
  import opened Rebuild

  /** Interval span of the tree root, `u64::MAX >> 1`. */
  const ROOT_CAPACITY: nat := TWO_64 / 2 - 1

  /** Labels that are in order everywhere except around one not yet placed leaf. */
  ghost predicate LaidBut(tp: Parents, chain: Chains, iv: Intervals, nf: Marks, id: BlockId) {
    && iv.Keys == chain.Keys && nf.Keys == chain.Keys
    && (forall x {:trigger MarkLaid(iv, nf, x)} :: x in chain && x != id ==> MarkLaid(iv, nf, x))
    && (forall c {:trigger ChildLaid(tp, iv, nf, c)} :: c in tp && c != id ==> ChildLaid(tp, iv, nf, c))
    && (forall c, d {:trigger SiblingsLaid(tp, iv, c, d)} ::
          c in tp && d in tp && c != id && d != id ==> SiblingsLaid(tp, iv, c, d))
  }

  /** Only labels inside the subtree of `r` differ. */
  ghost predicate SameOutside(chain: Chains, iv: Intervals, nf: Marks, iv': Intervals, nf': Marks, r: BlockId) {
    && (forall x {:trigger x in iv'} {:trigger iv'[x]} ::
          !TreeReach(chain, r, x) ==> (x in iv' <==> x in iv) && (x in iv ==> iv'[x] == iv[x]))
    && (forall x {:trigger x in nf'} {:trigger nf'[x]} ::
          !TreeReach(chain, r, x) ==> (x in nf' <==> x in nf) && (x in nf ==> nf'[x] == nf[x]))
  }

  /** A binary search for the first element failing `p`. On a list that `p` does not
      split into a passing front and a failing back, any index may come out. */
  method PartitionPoint(s: seq<BlockId>, p: BlockId -> bool) returns (pos: nat)
    ensures pos <= |s|
    ensures (forall i, j :: 0 <= i < j < |s| && p(s[j]) ==> p(s[i])) ==>
              (forall i :: 0 <= i < pos ==> p(s[i])) && (forall i :: pos <= i < |s| ==> !p(s[i]))
  {
    pos := 0;
    var right := |s|;
    while pos < right
      invariant pos <= right <= |s|
      invariant pos > 0 ==> p(s[pos - 1])
      invariant right < |s| ==> !p(s[right])
    {
      var mid := pos + (right - pos) / 2;
      if p(s[mid]) {
        pos := mid + 1;
      } else {
        right := mid;
      }
    }
  }

  /** Relabelling an ancestor's subtree inside its own interval puts a new leaf in order
      and leaves everything else as it was. */
  lemma RelayoutRepairs(tp: Parents, root: BlockId, chain: Chains, id: BlockId, r: BlockId, iv: Intervals, nf: Marks,
                        iv': Intervals, nf': Marks)
    requires IsTree(tp, root, chain) && LaidBut(tp, chain, iv, nf, id)
    requires id in tp && TreeReach(chain, r, tp[id])
    requires iv'.Keys == chain.Keys && nf'.Keys == chain.Keys
    requires SameOutside(chain, iv, nf, iv', nf', r) && LaidWithin(tp, chain, iv', nf', r)
    requires r in chain && iv'[r] == iv[r]
    ensures Laid(tp, chain, iv', nf')
  {
    assert Linked(tp, chain, id);
    assert TreeReach(chain, r, id);
    forall x | x in chain ensures MarkLaid(iv', nf', x) {
      if !TreeReach(chain, r, x) {
        assert MarkLaid(iv, nf, x);
      }
    }
    forall c | c in tp ensures ChildLaid(tp, iv', nf', c) {
      if !TreeReach(chain, r, tp[c]) {
        assert ChildLaid(tp, iv, nf, c);
        SameAtChild(tp, root, chain, r, iv, nf, iv', nf', c);
      }
    }
    forall c, d | c in tp && d in tp ensures SiblingsLaid(tp, iv', c, d) {
      if tp[c] == tp[d] && !TreeReach(chain, r, tp[c]) {
        assert SiblingsLaid(tp, iv, c, d);
        SameAtChild(tp, root, chain, r, iv, nf, iv', nf', c);
        SameAtChild(tp, root, chain, r, iv, nf, iv', nf', d);
      } else {
        assert ChildLaid(tp, iv', nf', c) && ChildLaid(tp, iv', nf', d);
      }
    }
  }

  lemma SameAtChild(tp: Parents, root: BlockId, chain: Chains, r: BlockId, iv: Intervals, nf: Marks, iv': Intervals,
                    nf': Marks, c: BlockId)
    requires IsTree(tp, root, chain) && SameOutside(chain, iv, nf, iv', nf', r)
    requires iv.Keys == iv'.Keys == chain.Keys && r in chain && iv'[r] == iv[r]
    requires c in tp && !TreeReach(chain, r, tp[c])
    ensures c in chain && iv'[c] == iv[c]
  {
    assert Linked(tp, chain, c);
  }

  /** The leaf got the first half of what its parent had left, and nothing else moved. */
  ghost predicate Halved(iv: Intervals, nf: Marks, iv': Intervals, nf': Marks, id: BlockId, sp: BlockId)
    requires sp in iv && sp in nf && 0 <= nf[sp] <= iv[sp].hi
  {
    var mid := nf[sp] + (iv[sp].hi - nf[sp]) / 2;
    iv' == iv[id := Span(nf[sp], mid)] && nf' == nf[id := nf[sp] + 1][sp := mid + 1]
  }

  lemma IsHalved(iv: Intervals, nf: Marks, iv': Intervals, nf': Marks, id: BlockId, sp: BlockId, mid: nat)
    requires sp in iv && sp in nf && 0 <= nf[sp] <= iv[sp].hi && mid == nf[sp] + (iv[sp].hi - nf[sp]) / 2
    requires iv' == iv[id := Span(nf[sp], mid)] && nf' == nf[id := nf[sp] + 1][sp := mid + 1]
    ensures Halved(iv, nf, iv', nf', id, sp)
  {
  }

  lemma OnlyItself(tp: Parents, root: BlockId, chain: Chains, iv: Intervals, sz: map<BlockId, int>, node: BlockId)
    requires IsTree(tp, root, chain) && node in chain
    ensures forall x {:trigger Slack(iv, sz, x)} ::
              TreeReach(chain, node, x) && TreeReach(chain, x, node) && x != node ==> !Slack(iv, sz, x)
  {
    forall x {:trigger Slack(iv, sz, x)} | TreeReach(chain, node, x) && TreeReach(chain, x, node) && x != node
      ensures false
    {
      ChainPrefix(tp, root, chain, node, x);
      ChainPrefix(tp, root, chain, x, node);
    }
  }

  /** The interval of `x` has twice the room its subtree needs. */
  ghost predicate Slack(iv: Intervals, sz: map<BlockId, int>, x: BlockId) {
    x in iv && x in sz && sz[x] >= 0 && iv[x].hi - iv[x].lo + 1 >= SatMul(sz[x], 2, U64_MAX)
  }

  /** Climbing past a block without slack: none on the way up to its parent has any. */
  lemma TightBelow(tp: Parents, root: BlockId, chain: Chains, iv: Intervals, sz: map<BlockId, int>, x: BlockId,
                   node: BlockId)
    requires IsTree(tp, root, chain) && x in tp && TreeReach(chain, x, node) && !Slack(iv, sz, x)
    requires forall y {:trigger Slack(iv, sz, y)} ::
               TreeReach(chain, x, y) && TreeReach(chain, y, node) && y != x ==> !Slack(iv, sz, y)
    ensures forall y {:trigger Slack(iv, sz, y)} ::
              TreeReach(chain, tp[x], y) && TreeReach(chain, y, node) && y != tp[x] ==> !Slack(iv, sz, y)
  {
    forall y {:trigger Slack(iv, sz, y)} | TreeReach(chain, tp[x], y) && TreeReach(chain, y, node) && y != tp[x]
      ensures !Slack(iv, sz, y)
    {
      BetweenOnChain(tp, root, chain, x, y, node);
    }
  }

  /** Of two blocks on one chain, one is above the other. */
  lemma BetweenOnChain(tp: Parents, root: BlockId, chain: Chains, x: BlockId, y: BlockId, node: BlockId)
    requires IsTree(tp, root, chain) && x in tp && TreeReach(chain, x, node) && TreeReach(chain, y, node)
    requires TreeReach(chain, tp[x], y) && y != tp[x]
    ensures TreeReach(chain, x, y)
  {
    ChainPrefix(tp, root, chain, x, node);
    ChainPrefix(tp, root, chain, y, node);
    ChainPrefix(tp, root, chain, tp[x], y);
    assert Linked(tp, chain, x);
    RootAboveAll(tp, root, chain, x);
    assert chain[x][|chain[x]| - 1] == x;
    assert chain[node][|chain[x]| - 1] == chain[x][|chain[x]| - 1];
    assert chain[y][|chain[x]| - 1] == chain[node][|chain[x]| - 1];
  }

  class Reachability {
    var intervals: Intervals
    var fcs: Covers
    var treeChildren: map<BlockId, seq<BlockId>>
    var treeParent: Parents
    var subtreeSize: map<BlockId, int>
    var nextFree: Marks
    ghost var root: BlockId
    ghost var chain: Chains

    /** Children lists and subtree sizes match the tree. */
    ghost predicate TreeKept()
      reads this`treeParent, this`root, this`chain, this`treeChildren, this`subtreeSize
    {
      Booked(treeParent, root, chain, treeChildren, subtreeSize)
    }

    /** The interval invariant, under the fixed root interval. */
    ghost predicate Labelled()
      reads this`treeParent, this`root, this`chain, this`intervals, this`nextFree
    {
      Laid(treeParent, chain, intervals, nextFree) && root in intervals && intervals[root] == Span(1, ROOT_CAPACITY)
    }

    /** The oracle is exact for the DAG `g`. */
    ghost predicate Valid(g: Graph)
      reads this
    {
      TreeKept() && Labelled() && Embedded(g, treeParent, chain) && CoversAll(g, fcs, chain)
    }

    /** Build the oracle for a whole stored DAG from scratch. */
    constructor Build(nodes: Nodes, genesis: BlockId, ghost k: nat, ghost tips: set<BlockId>)
      requires Consistent(k, genesis, nodes, tips) && |nodes| <= ROOT_CAPACITY
      requires forall p :: p in nodes[genesis].block.parents ==> p == genesis || p !in nodes
      ensures Valid(GraphOf(nodes)) && treeParent == SelectedParents(nodes) && root == genesis
    {
      intervals, fcs, treeChildren, treeParent, subtreeSize, nextFree := map[], map[], map[], map[], map[], map[];
      root, chain := genesis, map[];
      new;
      hide *;
      ConsistentLineages(k, genesis, nodes, tips);
      var dagChildren := BuildTree(nodes, genesis, k, tips);
      BuildCovers(nodes, genesis, k, tips, dagChildren);
    }

    /** The selected-parent tree, its sizes and its labels; returns the DAG child edges. */
    method BuildTree(nodes: Nodes, genesis: BlockId, ghost k: nat, ghost tips: set<BlockId>)
      returns (dagChildren: map<BlockId, seq<BlockId>>)
      requires Consistent(k, genesis, nodes, tips) && Lineages(nodes) && |nodes| <= ROOT_CAPACITY
      requires intervals == map[] && nextFree == map[] && root == genesis
      modifies this`treeChildren, this`treeParent, this`subtreeSize, this`chain, this`intervals, this`nextFree
      ensures TreeKept() && Labelled() && treeParent == SelectedParents(nodes) && chain == ChainsOf(nodes)
      ensures forall p {:trigger EdgesListed(nodes, nodes.Keys, dagChildren, p)} ::
                EdgesListed(nodes, nodes.Keys, dagChildren, p)
    {
      hide *;
      dagChildren := RaiseTree(nodes, genesis, k, tips);
      LabelAll(genesis);
    }

    /** The tree and its sizes, without labels. */
    method RaiseTree(nodes: Nodes, genesis: BlockId, ghost k: nat, ghost tips: set<BlockId>)
      returns (dagChildren: map<BlockId, seq<BlockId>>)
      requires Consistent(k, genesis, nodes, tips) && Lineages(nodes) && root == genesis
      modifies this`treeChildren, this`treeParent, this`subtreeSize, this`chain
      ensures TreeKept() && treeParent == SelectedParents(nodes) && chain == ChainsOf(nodes)
      ensures root in chain && root in subtreeSize && subtreeSize[root] <= |nodes|
      ensures forall p {:trigger EdgesListed(nodes, nodes.Keys, dagChildren, p)} ::
                EdgesListed(nodes, nodes.Keys, dagChildren, p)
    {
      hide *;
      TreeOfNodes(k, genesis, nodes, tips);
      ChainsCount(nodes);
      var kids, up, edges := CollectEdges(nodes);
      var sizes := SubtreeSizes(genesis, kids, up, ChainsOf(nodes));
      treeChildren, treeParent, subtreeSize, dagChildren := kids, up, sizes, edges;
      chain := ChainsOf(nodes);
      TreeBuilt();
    }

    /** Label the whole tree under the root interval. */
    method LabelAll(genesis: BlockId)
      requires && genesis == root && TreeKept() && root in chain && root in subtreeSize
               && subtreeSize[root] <= ROOT_CAPACITY
      requires intervals == map[] && nextFree == map[]
      modifies this`intervals, this`nextFree
      ensures Labelled()
    {
      BookedTree(treeParent, root, chain, treeChildren, subtreeSize);
      hide *;
      ghost var iv0, nf0 := intervals, nextFree;
      NoLabels(iv0, nf0);
      RelayoutSubtree(genesis, 1, ROOT_CAPACITY);
      KeysBuilt(treeParent, chain, iv0, nf0, intervals, nextFree, root);
      WholeLaid(treeParent, root, chain, intervals, nextFree);
      LabelsBuilt();
    }

    method BuildCovers(nodes: Nodes, genesis: BlockId, ghost k: nat, ghost tips: set<BlockId>,
                       dagChildren: map<BlockId, seq<BlockId>>)
      requires Consistent(k, genesis, nodes, tips) && Lineages(nodes) && root == genesis
      requires forall p :: p in nodes[genesis].block.parents ==> p == genesis || p !in nodes
      requires TreeKept() && Labelled() && treeParent == SelectedParents(nodes) && chain == ChainsOf(nodes)
      requires forall p {:trigger EdgesListed(nodes, nodes.Keys, dagChildren, p)} ::
                 EdgesListed(nodes, nodes.Keys, dagChildren, p)
      modifies this`fcs
      ensures Valid(GraphOf(nodes))
    {
      hide *;
      TreeOfNodes(k, genesis, nodes, tips);
      EdgesAreGraph(k, genesis, nodes, tips, dagChildren);
      GraphKeys(nodes);
      LabelsOnly();
      fcs := BuildFcs(nodes.Keys, treeParent, dagChildren, intervals, GraphOf(nodes), root, chain, nextFree);
      Built(GraphOf(nodes));
    }

    lemma TreeBuilt()
      requires IsTree(treeParent, root, chain) && treeChildren.Keys == chain.Keys && subtreeSize.Keys == chain.Keys
      requires forall x {:trigger ChildrenListed(treeParent, treeChildren, x)} ::
                 x in chain ==> ChildrenListed(treeParent, treeChildren, x)
      requires forall x {:trigger Sized(chain, subtreeSize, x)} :: x in chain ==> Sized(chain, subtreeSize, x)
      ensures TreeKept() && root in chain && root in subtreeSize && subtreeSize[root] <= |chain|
    {
      RootSize(root, chain, subtreeSize);
    }

    lemma LabelsBuilt()
      requires Laid(treeParent, chain, intervals, nextFree)
      requires root in intervals && intervals[root] == Span(1, ROOT_CAPACITY)
      ensures Labelled()
    {
    }

    lemma LabelsOnly()
      requires Labelled()
      ensures Laid(treeParent, chain, intervals, nextFree)
    {
    }

    lemma Built(g: Graph)
      requires TreeKept() && Labelled() && Embedded(g, treeParent, chain) && CoversAll(g, fcs, chain)
      ensures Valid(g)
    {
    }

    /** Append a leaf to the tree and count it in every subtree it joins. */
    method RegisterLeaf(id: BlockId, selectedParent: BlockId)
      requires TreeKept() && id !in chain && selectedParent in chain
      modifies this`treeChildren, this`treeParent, this`subtreeSize, this`chain
      ensures TreeKept()
      ensures treeParent == old(treeParent)[id := selectedParent]
      ensures chain == old(chain)[id := old(chain)[selectedParent] + [id]]
    {
      var children := treeChildren[selectedParent];
      assert ChildrenListed(treeParent, treeChildren, selectedParent);
      assert id !in children by {
        assert IsChild(treeParent, selectedParent, id) ==> Linked(treeParent, chain, id);
      }
      var pos := PartitionPoint(children, c => c < id);
      InsertSorted(children, id, pos);
      var siblings := children[..pos] + [id] + children[pos..];
      ghost var ch0, tp0, sz0, chain0 := treeChildren, treeParent, subtreeSize, chain;
      treeChildren := treeChildren[selectedParent := siblings][id := []];
      treeParent := treeParent[id := selectedParent];
      subtreeSize := subtreeSize[id := 1];
      ghost var sz1 := subtreeSize;
      BumpAncestors(tp0, id, selectedParent);
      forall x | x in chain0 ensures Bumped(chain0, sz0, subtreeSize, selectedParent, x) {
        assert Bumped(chain, sz1, subtreeSize, selectedParent, x);
      }
      chain := chain[id := chain[selectedParent] + [id]];
      BookedLeaf(tp0, root, chain0, ch0, sz0, id, selectedParent, siblings, subtreeSize);
    }

    method BumpAncestors(ghost tp0: Parents, id: BlockId, selectedParent: BlockId)
      requires IsTree(tp0, root, chain) && id !in chain && selectedParent in chain
      requires treeParent == tp0[id := selectedParent]
      requires subtreeSize.Keys == chain.Keys + {id}
      modifies this`subtreeSize
      ensures subtreeSize.Keys == old(subtreeSize).Keys && subtreeSize[id] == old(subtreeSize)[id]
      ensures forall x {:trigger Bumped(chain, old(subtreeSize), subtreeSize, selectedParent, x)} ::
                x in chain ==> Bumped(chain, old(subtreeSize), subtreeSize, selectedParent, x)
    {
      var cur: Option<BlockId> := Some(selectedParent);
      RootAboveAll(tp0, root, chain, selectedParent);
      while cur.Some?
        invariant subtreeSize.Keys == old(subtreeSize).Keys && subtreeSize[id] == old(subtreeSize)[id]
        invariant cur.Some? ==> TreeReach(chain, cur.value, selectedParent) && cur.value in chain
        invariant forall x {:trigger subtreeSize[x]} :: x in chain ==>
                    subtreeSize[x] == old(subtreeSize)[x] +
                      if x in chain[selectedParent] && (cur.None? || x !in chain[cur.value]) then 1 else 0
        decreases if cur.Some? then |chain[cur.value]| else -1
      {
        var x := cur.value;
        assert x != id;
        StepBelow(tp0, root, chain, x, selectedParent);
        subtreeSize := subtreeSize[x := subtreeSize[x] + 1];
        cur := if x in treeParent then Some(treeParent[x]) else None;
      }
    }

    /** Re-lay-out the subtree of `r` inside `[lo, hi]`, with an explicit stack. */
    method RelayoutSubtree(r: BlockId, lo: nat, hi: nat)
      requires TreeKept() && r in chain && lo + subtreeSize[r] <= hi + 1
      modifies this`intervals, this`nextFree
      ensures LaidWithin(treeParent, chain, intervals, nextFree, r)
      ensures RoomyWithin(chain, subtreeSize, intervals, r)
      ensures r in intervals && intervals[r] == Span(lo, hi)
      ensures SameOutside(chain, old(intervals), old(nextFree), intervals, nextFree, r)
    {
      hide *;
      var stack := [Frame(r, lo, hi)];
      ghost var asg: Assigned, done: set<BlockId> := map[r := Span(lo, hi)], {};
      SizedRoot(r);
      StartRelayout(treeParent, root, chain, subtreeSize, r, lo, hi, intervals, nextFree);
      NothingOutside(chain, intervals, nextFree, r);
      while stack != []
        invariant Progress(treeParent, chain, subtreeSize, r, asg, done, intervals, nextFree)
        invariant StackOk(stack, asg, done) && r in asg && asg[r] == Span(lo, hi)
        invariant SameOutside(chain, old(intervals), old(nextFree), intervals, nextFree, r)
        decreases |Subtree(chain, r)| - |done|
      {
        var top := stack[|stack| - 1];
        TopOfStack(treeParent, chain, subtreeSize, r, stack, asg, done, intervals, nextFree);
        var frames, cursor := SliceForChildren(top.node, top.lo, top.hi);
        RelayoutStep(treeParent, root, chain, treeChildren, subtreeSize, r, stack, asg, done,
                     old(intervals), old(nextFree), intervals, nextFree, frames, cursor);
        intervals := intervals[top.node := Span(top.lo, top.hi)];
        nextFree := nextFree[top.node := cursor];
        stack := stack[..|stack| - 1] + frames;
        asg, done := Assign(asg, frames), done + {top.node};
      }
      RelayoutDone(treeParent, root, chain, subtreeSize, r, asg, done, intervals, nextFree);
    }

    lemma SizedRoot(r: BlockId)
      requires TreeKept() && r in chain
      ensures && Booked(treeParent, root, chain, treeChildren, subtreeSize) && IsTree(treeParent, root, chain)
              && r in subtreeSize
    {
      BookedTree(treeParent, root, chain, treeChildren, subtreeSize);
    }

    /** The slices of one popped block: a leaf keeps its whole region free. */
    method SliceForChildren(node: BlockId, lo: nat, hi: nat)
      returns (frames: seq<Frame>, cursor: nat)
      requires TreeKept() && node in chain && node in subtreeSize && lo + subtreeSize[node] <= hi + 1
      ensures node in treeChildren && ChildFrames(treeChildren[node], subtreeSize, lo, hi, frames, cursor)
      ensures var total := subtreeSize[node] - 1;
              if total > 0 then hi - lo >= total && FairSlices(treeChildren[node], subtreeSize, lo, hi - lo - total,
                                                               total, frames, cursor)
              else frames == [] && cursor == lo + 1
    {
      SizeSplits(treeParent, root, chain, treeChildren, subtreeSize, node);
      assert ChildrenListed(treeParent, treeChildren, node);
      forall i {:trigger treeChildren[node][i]} | 0 <= i < |treeChildren[node]|
        ensures treeChildren[node][i] in subtreeSize && subtreeSize[treeChildren[node][i]] > 0
      {
        ChildHasSize(treeParent, root, chain, treeChildren, subtreeSize, node, treeChildren[node][i]);
      }
      SumSizesPositive(treeChildren[node], subtreeSize);
      var total := subtreeSize[node] - 1;
      if total == 0 {
        NoSizesNoChildren(treeChildren[node], subtreeSize);
        return [], lo + 1;
      }
      frames, cursor := LayChildren(treeChildren[node], subtreeSize, lo, hi, total);
    }

    /** Re-lay-out the lowest subtree above `node` with twice the room it needs, falling
        back on the root. Only that subtree moves, inside its own unchanged interval. */
    method Reindex(node: BlockId, ghost id: BlockId) returns (ghost moved: BlockId)
      requires TreeKept() && LaidBut(treeParent, chain, intervals, nextFree, id)
      requires IsChild(treeParent, node, id) && node in chain
      requires intervals[root] == Span(1, ROOT_CAPACITY) && |chain| <= ROOT_CAPACITY
      modifies this`intervals, this`nextFree
      ensures Labelled() && RoomyWithin(chain, subtreeSize, intervals, moved)
      ensures TreeReach(chain, moved, node)
      ensures SameOutside(chain, old(intervals), old(nextFree), intervals, nextFree, moved)
      ensures moved in old(intervals) && moved in intervals && intervals[moved] == old(intervals)[moved]
      ensures moved == root || Slack(old(intervals), subtreeSize, moved)
      ensures forall x {:trigger Slack(old(intervals), subtreeSize, x)} ::
                TreeReach(chain, moved, x) && TreeReach(chain, x, node) && x != moved ==>
                  !Slack(old(intervals), subtreeSize, x)
    {
      var anchor := node;
      BookedTree(treeParent, root, chain, treeChildren, subtreeSize);
      RootAboveAll(treeParent, root, chain, node);
      LeafHasNoDescendants(treeParent, root, chain, id, node);
      OnlyItself(treeParent, root, chain, intervals, subtreeSize, node);
      while true
        invariant anchor in chain && TreeReach(chain, anchor, node) && anchor != id
        invariant intervals == old(intervals) && nextFree == old(nextFree)
        invariant forall x {:trigger Slack(intervals, subtreeSize, x)} ::
                    TreeReach(chain, anchor, x) && TreeReach(chain, x, node) && x != anchor ==>
                      !Slack(intervals, subtreeSize, x)
        decreases |chain[anchor]|
      {
        StepBelow(treeParent, root, chain, anchor, node);
        AnchorFacts(treeParent, root, chain, treeChildren, subtreeSize, intervals, nextFree, id, anchor);
        var Span(lo, hi) := intervals[anchor];
        var capacity := hi - lo + 1;
        var need := subtreeSize[anchor];
        if capacity >= SatMul(need, 2, TWO_64 - 1) || anchor !in treeParent {
          RelayoutSubtree(anchor, lo, hi);
          moved := anchor;
          KeysAfterRelayout(treeParent, root, chain, old(intervals), old(nextFree), intervals, nextFree, anchor);
          RelayoutRepairs(treeParent, root, chain, id, anchor, old(intervals), old(nextFree), intervals, nextFree);
          RootKept(treeParent, root, chain, old(intervals), old(nextFree), intervals, nextFree, anchor);
          return;
        }
        TightBelow(treeParent, root, chain, intervals, subtreeSize, anchor, node);
        anchor := treeParent[anchor];
        LeafHasNoDescendants(treeParent, root, chain, id, anchor);
      }
    }

    /** Carve the leaf's interval out of its parent's free region, or make room first. */
    method PlaceLeaf(id: BlockId, selectedParent: BlockId, ghost tp0: Parents, ghost chain0: Chains)
      requires TreeKept() && |chain| <= ROOT_CAPACITY
      requires IsTree(tp0, root, chain0) && id !in chain0 && selectedParent in chain0
      requires treeParent == tp0[id := selectedParent]
      requires chain == chain0[id := chain0[selectedParent] + [id]]
      requires Laid(tp0, chain0, intervals, nextFree) && intervals[root] == Span(1, ROOT_CAPACITY)
      modifies this`intervals, this`nextFree
      ensures && Labelled() && selectedParent in old(intervals) && selectedParent in old(nextFree)
              && old(nextFree)[selectedParent] >= 0
      ensures old(nextFree)[selectedParent] <= old(intervals)[selectedParent].hi ==>
                Halved(old(intervals), old(nextFree), intervals, nextFree, id, selectedParent)
    {
      RootInside(tp0, root, chain0, intervals, nextFree, selectedParent);
      hide *;
      if nextFree[selectedParent] <= intervals[selectedParent].hi {
        HalveFor(id, selectedParent, tp0, chain0);
      } else {
        MakeRoom(id, selectedParent, tp0, chain0);
      }
    }

    /** The leaf gets the first half of what its parent has left. */
    method HalveFor(id: BlockId, selectedParent: BlockId, ghost tp0: Parents, ghost chain0: Chains)
      requires IsTree(tp0, root, chain0) && id !in chain0 && selectedParent in chain0
      requires treeParent == tp0[id := selectedParent] && chain == chain0[id := chain0[selectedParent] + [id]]
      requires Laid(tp0, chain0, intervals, nextFree) && root in intervals && intervals[root] == Span(1, ROOT_CAPACITY)
      requires && selectedParent in intervals && selectedParent in nextFree
               && 0 <= nextFree[selectedParent] <= intervals[selectedParent].hi
      modifies this`intervals, this`nextFree
      ensures Labelled() && Halved(old(intervals), old(nextFree), intervals, nextFree, id, selectedParent)
    {
      hide *;
      ghost var iv0, nf0 := intervals, nextFree;
      var pEnd: nat := intervals[selectedParent].hi;
      var remLo: nat := nextFree[selectedParent];
      var mid: nat := remLo + (pEnd - remLo) / 2;
      intervals := intervals[id := Span(remLo, mid)];
      nextFree := nextFree[id := remLo + 1][selectedParent := mid + 1];
      LeafLaid(tp0, root, chain0, iv0, nf0, id, selectedParent, remLo, mid, treeParent, chain, intervals, nextFree);
      IsHalved(iv0, nf0, intervals, nextFree, id, selectedParent, mid);
      LabelsBuilt();
    }

    /** The parent is out of capacity: park the leaf past its end, then reindex. */
    method MakeRoom(id: BlockId, selectedParent: BlockId, ghost tp0: Parents, ghost chain0: Chains)
      requires TreeKept() && |chain| <= ROOT_CAPACITY
      requires IsTree(tp0, root, chain0) && id !in chain0 && selectedParent in chain0
      requires treeParent == tp0[id := selectedParent]
      requires chain == chain0[id := chain0[selectedParent] + [id]]
      requires Laid(tp0, chain0, intervals, nextFree) && root in intervals && intervals[root] == Span(1, ROOT_CAPACITY)
      modifies this`intervals, this`nextFree
      ensures Labelled()
    {
      hide *;
      ParkLeaf(id, selectedParent, tp0, chain0);
      ghost var moved := Reindex(selectedParent, id);
    }

    /** Give the leaf a temporary label past its parent's end. */
    method ParkLeaf(id: BlockId, selectedParent: BlockId, ghost tp0: Parents, ghost chain0: Chains)
      requires IsTree(tp0, root, chain0) && id !in chain0 && selectedParent in chain0
      requires treeParent == tp0[id := selectedParent]
      requires chain == chain0[id := chain0[selectedParent] + [id]]
      requires Laid(tp0, chain0, intervals, nextFree) && root in intervals && intervals[root] == Span(1, ROOT_CAPACITY)
      modifies this`intervals, this`nextFree
      ensures && LaidBut(treeParent, chain, intervals, nextFree, id) && IsChild(treeParent, selectedParent, id)
              && selectedParent in chain
      ensures root in intervals && intervals[root] == Span(1, ROOT_CAPACITY)
    {
      hide *;
      RootInside(tp0, root, chain0, intervals, nextFree, selectedParent);
      ghost var iv0, nf0 := intervals, nextFree;
      var remLo := nextFree[selectedParent];
      intervals := intervals[id := Span(remLo, remLo)];
      nextFree := nextFree[id := remLo];
      LeafPending(tp0, root, chain0, iv0, nf0, id, selectedParent, remLo, treeParent, chain, intervals, nextFree);
    }

    /** Make `b` covered from `a`, dropping entries that `b` itself covers. */
    method InsertToFutureCoveringSet(a: BlockId, b: BlockId)
      requires TreeKept() && Labelled() && MembersPresent(fcs, chain, a) && b in chain
      modifies this`fcs
      ensures a in fcs && fcs == old(fcs)[a := fcs[a]] && CoverStep(chain, CoverOf(old(fcs), a), fcs[a], b)
    {
      hide CoverStep, Booked, Laid;
      var entries := if a in fcs then fcs[a] else [];
      var covers := WithCover(entries, b);
      fcs := fcs[a := covers];
    }

    method WithCover(entries: seq<BlockId>, b: BlockId) returns (covers: seq<BlockId>)
      requires TreeKept() && Labelled() && b in chain
      requires forall c :: c in entries ==> c in chain
      ensures CoverStep(chain, entries, covers, b)
    {
      LabelsMatch(b, b);
      hide Booked, Laid, TreeReach;
      var iv := intervals;
      var bStart := iv[b].lo;
      covers := entries;
      var pos := PartitionPoint(covers, c => c in iv && iv[c].lo <= bStart);
      if pos > 0 {
        LabelsMatch(covers[pos - 1], b);
        if iv[covers[pos - 1]].lo <= bStart && iv[b].hi <= iv[covers[pos - 1]].hi {
          return;
        }
      }
      covers := DropCovered(covers, b, pos);
      InsertAt(covers, pos, b);
      covers := covers[..pos] + [b] + covers[pos..];
    }

    /** Remove the run of entries from `pos` on that lie below `b`. */
    method DropCovered(entries: seq<BlockId>, b: BlockId, pos: nat) returns (covers: seq<BlockId>)
      requires TreeKept() && Labelled() && b in chain && pos <= |entries|
      requires forall c :: c in entries ==> c in chain
      ensures pos <= |covers|
      ensures forall c :: c in covers ==> c in entries
      ensures forall c :: c in entries ==> c in covers || TreeReach(chain, b, c)
    {
      covers := entries;
      LabelsMatch(b, b);
      while pos < |covers|
        invariant pos <= |covers|
        invariant forall c :: c in covers ==> c in entries
        invariant forall c :: c in entries ==> c in covers || TreeReach(chain, b, c)
        decreases |covers|
      {
        hide Booked, Laid, TreeReach;
        LabelsMatch(b, covers[pos]);
        var c := intervals[covers[pos]];
        if intervals[b].lo <= c.lo && c.hi <= intervals[b].hi {
          RemoveAt(covers, pos);
          covers := covers[..pos] + covers[pos + 1..];
        } else {
          break;
        }
      }
    }

    /** Labels of present blocks are non-empty and contain exactly the tree descendants. */
    lemma LabelsMatch(x: BlockId, y: BlockId)
      requires TreeKept() && Labelled() && x in chain && y in chain
      ensures x in intervals && y in intervals && intervals[y].lo <= intervals[y].hi
      ensures intervals[x].lo <= intervals[y].lo <= intervals[x].hi <==> TreeReach(chain, x, y)
    {
      NonEmptyInterval(treeParent, chain, intervals, nextFree, y);
      ContainsIffReach(treeParent, root, chain, intervals, nextFree, x, y);
    }

    /** Fold one freshly inserted block into the oracle. `g` is the DAG before it. */
    method AddBlock(id: BlockId, selectedParent: BlockId, mergeset: seq<BlockId>, ghost g: Graph,
                    ghost parents: seq<BlockId>)
      requires Valid(g) && WellFormed(g) && id !in g && |g| < ROOT_CAPACITY
      requires (forall p :: p in parents ==> p in g) && selectedParent in parents
      requires Distinct(mergeset)
      requires PastOf(g, parents) == PastEq(g, selectedParent) + Elements(mergeset)
      requires Elements(mergeset) !! PastEq(g, selectedParent)
      modifies this
      ensures Valid(g[id := parents])
      ensures treeParent == old(treeParent)[id := selectedParent] && root == old(root)
    {
      hide *;
      ghost var tp0, chain0 := treeParent, chain;
      Ready(g, parents, id, selectedParent);
      GrowTree(id, selectedParent);
      CoverLeaf(id, selectedParent, mergeset, g, parents, tp0, chain0);
    }

    /** What a valid oracle offers a new leaf. */
    lemma Ready(g: Graph, parents: seq<BlockId>, id: BlockId, selectedParent: BlockId)
      requires Valid(g) && id !in g && (forall p :: p in parents ==> p in g) && selectedParent in parents
      ensures TreeKept() && Labelled() && Embedded(g, treeParent, chain) && CoversAll(g, fcs, chain)
      ensures IsTree(treeParent, root, chain) && selectedParent in chain && id !in chain && |chain| == |g|
    {
      hide IsTree, Laid, TreeReach, CoversAll;
      AddBlockReady(g, parents, treeParent, root, chain, treeChildren, subtreeSize, id, selectedParent);
    }

    /** Step 3 of adding a block: every merged block covers the leaf. */
    method CoverLeaf(id: BlockId, selectedParent: BlockId, mergeset: seq<BlockId>, ghost g: Graph,
                     ghost parents: seq<BlockId>, ghost tp0: Parents, ghost chain0: Chains)
      requires TreeKept() && Labelled()
      requires WellFormed(g) && id !in g && (forall p :: p in parents ==> p in g) && selectedParent in parents
      requires && IsTree(tp0, root, chain0) && Embedded(g, tp0, chain0) && CoversAll(g, fcs, chain0)
               && selectedParent in chain0
      requires Distinct(mergeset)
      requires PastOf(g, parents) == PastEq(g, selectedParent) + Elements(mergeset)
      requires Elements(mergeset) !! PastEq(g, selectedParent)
      requires treeParent == tp0[id := selectedParent]
      requires chain == chain0[id := chain0[selectedParent] + [id]]
      modifies this`fcs
      ensures Valid(g[id := parents])
    {
      hide *;
      ghost var fcs0 := fcs;
      EmbeddedKeys(g, tp0, chain0);
      CoverReady(g, parents, chain0, fcs, id, selectedParent, mergeset, chain);
      CoverMergeset(id, mergeset);
      Grown(g, parents, tp0, chain0, fcs0, id, selectedParent, mergeset);
    }

    lemma Grown(g: Graph, ps: seq<BlockId>, tp: Parents, chain0: Chains, fcs0: Covers, id: BlockId, sp: BlockId,
                mergeset: seq<BlockId>)
      requires TreeKept() && Labelled()
      requires WellFormed(g) && id !in g && (forall p :: p in ps ==> p in g) && sp in ps
      requires IsTree(tp, root, chain0) && Embedded(g, tp, chain0) && CoversAll(g, fcs0, chain0) && sp in chain0
      requires PastOf(g, ps) == PastEq(g, sp) + Elements(mergeset) && Elements(mergeset) !! PastEq(g, sp)
      requires treeParent == tp[id := sp] && chain == chain0[id := chain0[sp] + [id]]
      requires forall a {:trigger FcsStep(fcs0, fcs, chain, Elements(mergeset), id, a)} ::
                 FcsStep(fcs0, fcs, chain, Elements(mergeset), id, a)
      ensures Valid(g[id := ps])
    {
      hide IsTree, Laid, Booked, TreeReach, CoversAll, Embedded, FcsStep, WellFormed;
      AddBlockDone(g, ps, tp, root, chain0, fcs0, id, sp, mergeset, treeParent, chain, fcs);
    }

    /** Steps 1 and 2 of adding a block: the leaf joins the tree and gets its interval. */
    method GrowTree(id: BlockId, selectedParent: BlockId)
      requires TreeKept() && Labelled() && id !in chain && selectedParent in chain && |chain| < ROOT_CAPACITY
      modifies this`treeChildren, this`treeParent, this`subtreeSize, this`chain, this`intervals, this`nextFree
      ensures TreeKept() && Labelled() && id in chain
      ensures treeParent == old(treeParent)[id := selectedParent]
      ensures chain == old(chain)[id := old(chain)[selectedParent] + [id]]
    {
      ghost var tp0, chain0 := treeParent, chain;
      BookedTree(treeParent, root, chain, treeChildren, subtreeSize);
      hide *;
      RegisterLeaf(id, selectedParent);
      LeafCount(chain0, id, chain0[selectedParent] + [id], chain);
      PlaceLeaf(id, selectedParent, tp0, chain0);
    }

    method CoverMergeset(id: BlockId, mergeset: seq<BlockId>)
      requires TreeKept() && Labelled() && id in chain
      requires forall a {:trigger MembersPresent(fcs, chain, a)} :: MembersPresent(fcs, chain, a)
      requires Distinct(mergeset)
      requires forall a :: a in mergeset ==> a in chain && a != id
      modifies this`fcs
      ensures forall a {:trigger FcsStep(old(fcs), fcs, chain, Elements(mergeset), id, a)} ::
                FcsStep(old(fcs), fcs, chain, Elements(mergeset), id, a)
    {
      for i := 0 to |mergeset|
        invariant forall a {:trigger MembersPresent(fcs, chain, a)} :: MembersPresent(fcs, chain, a)
        invariant forall a {:trigger FcsStep(old(fcs), fcs, chain, Elements(mergeset[..i]), id, a)} ::
                    FcsStep(old(fcs), fcs, chain, Elements(mergeset[..i]), id, a)
      {
        ghost var before := fcs;
        InsertToFutureCoveringSet(mergeset[i], id);
        FcsAdvance(old(fcs), before, fcs, chain, mergeset, i, id);
      }
      assert mergeset[..|mergeset|] == mergeset;
    }

    /** Whether `x` is a tree ancestor of `y`, or `y` itself. */
    predicate TreeReaches(x: BlockId, y: BlockId)
      reads this
    {
      Contains(intervals, x, y)
    }

    /** Whether `ancestor` is a strict selected-chain ancestor of `descendant`. */
    predicate IsChainAncestor(ancestor: BlockId, descendant: BlockId)
      reads this
    {
      ancestor != descendant && TreeReaches(ancestor, descendant)
    }

    /** Whether `ancestor` is in the past of `descendant`. */
    predicate IsAncestor(ancestor: BlockId, descendant: BlockId)
      reads this
    {
      && ancestor != descendant
      && (|| TreeReaches(ancestor, descendant)
          || (ancestor in fcs && exists c :: c in fcs[ancestor] && TreeReaches(c, descendant)))
    }

    /** A valid oracle's answers are the ancestor relation itself. */
    lemma AnswersAreExact(g: Graph, a: BlockId, b: BlockId)
      requires Valid(g)
      ensures IsAncestor(a, b) <==> Anc(g, a, b) && a in g && a != b
      ensures IsChainAncestor(a, b) <==> TreeReach(chain, a, b) && a != b
    {
      BookedTree(treeParent, root, chain, treeChildren, subtreeSize);
      ContainsIffReach(treeParent, root, chain, intervals, nextFree, a, b);
      assert MembersPresent(fcs, chain, a);
      forall c ensures TreeReaches(c, b) <==> TreeReach(chain, c, b) {
        ContainsIffReach(treeParent, root, chain, intervals, nextFree, c, b);
      }
      assert IsAncestor(a, b) <==> a != b && Covered(fcs, chain, a, b);
      if a in g && b in g {
        assert Exact(g, fcs, chain, a, b);
      } else if Covered(fcs, chain, a, b) && TreeReach(chain, a, b) {
        ChainPrefix(treeParent, root, chain, a, b);
      }
    }
  }

  lemma NonEmptyInterval(tp: Parents, chain: Chains, iv: Intervals, nf: Marks, x: BlockId)
    requires Laid(tp, chain, iv, nf) && x in chain
    ensures iv[x].lo <= iv[x].hi
  {
    assert MarkLaid(iv, nf, x);
  }

  lemma RemoveAt(s: seq<BlockId>, pos: nat)
    requires pos < |s|
    ensures forall c :: c in s ==> c == s[pos] || c in s[..pos] + s[pos + 1..]
    ensures forall c :: c in s[..pos] + s[pos + 1..] ==> c in s
  {
    forall c | c in s ensures c == s[pos] || c in s[..pos] + s[pos + 1..] {
      var i :| 0 <= i < |s| && s[i] == c;
      var t := s[..pos] + s[pos + 1..];
      assert if i < pos then t[i] == c else i == pos || t[i - 1] == c;
    }
  }

  lemma InsertAt(s: seq<BlockId>, pos: nat, b: BlockId)
    requires pos <= |s|
    ensures forall c :: c in s[..pos] + [b] + s[pos..] <==> c in s || c == b
  {
    var t := s[..pos] + [b] + s[pos..];
    assert t[pos] == b;
    forall c | c in s ensures c in t {
      var i :| 0 <= i < |s| && s[i] == c;
      assert if i < pos then t[i] == c else t[i + 1] == c;
    }
  }

  lemma RootInside(tp: Parents, root: BlockId, chain: Chains, iv: Intervals, nf: Marks, sp: BlockId)
    requires IsTree(tp, root, chain) && Laid(tp, chain, iv, nf) && sp in chain
    ensures sp in iv && sp in nf && root in iv && root in chain
    ensures iv[sp].lo < nf[sp] <= iv[sp].hi + 1
  {
    assert MarkLaid(iv, nf, sp);
  }

  /** A slice of the free region is in order for the new leaf. */
  lemma LeafLaid(tp: Parents, root: BlockId, chain: Chains, iv: Intervals, nf: Marks, id: BlockId, sp: BlockId, at: nat,
                 mid: nat, tp': Parents, chain': Chains, iv': Intervals, nf': Marks)
    requires IsTree(tp, root, chain) && Laid(tp, chain, iv, nf) && id !in chain && sp in chain
    requires at == nf[sp] && at <= mid <= iv[sp].hi
    requires tp' == tp[id := sp] && chain' == chain[id := chain[sp] + [id]]
    requires iv' == iv[id := Span(at, mid)] && nf' == nf[id := at + 1][sp := mid + 1]
    ensures Laid(tp', chain', iv', nf')
    ensures root in iv && root in iv' && iv'[root] == iv[root]
  {
    assert MarkLaid(iv, nf, sp);
    assert iv'.Keys == chain'.Keys && nf'.Keys == chain'.Keys;
    forall x | x in chain' ensures MarkLaid(iv', nf', x) {
      assert x != id ==> MarkLaid(iv, nf, x);
    }
    forall c | c in tp' ensures ChildLaid(tp', iv', nf', c) {
      if c != id {
        assert Linked(tp, chain, c) && ChildLaid(tp, iv, nf, c);
      }
    }
    forall c, d | c in tp' && d in tp' ensures SiblingsLaid(tp', iv', c, d) {
      assert c != id ==> Linked(tp, chain, c) && ChildLaid(tp, iv, nf, c);
      assert d != id ==> Linked(tp, chain, d) && ChildLaid(tp, iv, nf, d);
      assert c != id && d != id ==> SiblingsLaid(tp, iv, c, d);
    }
  }

  /** A temporary label leaves everything but the new leaf in order. */
  lemma LeafPending(tp: Parents, root: BlockId, chain: Chains, iv: Intervals, nf: Marks, id: BlockId, sp: BlockId,
                    at: nat, tp': Parents, chain': Chains, iv': Intervals, nf': Marks)
    requires IsTree(tp, root, chain) && Laid(tp, chain, iv, nf) && id !in chain && sp in chain
    requires tp' == tp[id := sp] && chain' == chain[id := chain[sp] + [id]]
    requires iv' == iv[id := Span(at, at)] && nf' == nf[id := at]
    ensures LaidBut(tp', chain', iv', nf', id)
    ensures root in iv && root in iv' && iv'[root] == iv[root]
    ensures IsChild(tp', sp, id) && sp in chain'
  {
    assert iv'.Keys == chain'.Keys && nf'.Keys == chain'.Keys;
    forall x | x in chain' && x != id ensures MarkLaid(iv', nf', x) {
      assert MarkLaid(iv, nf, x);
    }
    forall c | c in tp' && c != id ensures ChildLaid(tp', iv', nf', c) {
      assert Linked(tp, chain, c) && ChildLaid(tp, iv, nf, c);
    }
    forall c, d | c in tp' && d in tp' && c != id && d != id ensures SiblingsLaid(tp', iv', c, d) {
      assert Linked(tp, chain, c) && Linked(tp, chain, d) && SiblingsLaid(tp, iv, c, d);
    }
  }
  lemma LeafCount(chain: Chains, id: BlockId, c: seq<BlockId>, chain': Chains)
    requires id !in chain && chain' == chain[id := c]
    ensures id in chain' && |chain'| == |chain| + 1
  {
    assert chain'.Keys == chain.Keys + {id};
    assert |chain'| == |chain'.Keys| && |chain| == |chain.Keys|;
  }

  lemma AddBlockReady(g: Graph, ps: seq<BlockId>, tp: Parents, root: BlockId, chain: Chains,
                      ch: map<BlockId, seq<BlockId>>, sz: map<BlockId, int>, id: BlockId, sp: BlockId)
    requires Booked(tp, root, chain, ch, sz) && Embedded(g, tp, chain)
    requires (forall p :: p in ps ==> p in g) && sp in ps && id !in g
    ensures IsTree(tp, root, chain) && sp in chain && id !in chain && |chain| == |g|
  {
    assert |chain| == |chain.Keys| && |g| == |g.Keys|;
  }

  lemma EmbeddedKeys(g: Graph, tp: Parents, chain: Chains)
    requires Embedded(g, tp, chain)
    ensures g.Keys == chain.Keys
  {
  }

  lemma CoverReady(g: Graph, ps: seq<BlockId>, chain0: Chains, fcs: Covers, id: BlockId, sp: BlockId,
                   mergeset: seq<BlockId>, chain: Chains)
    requires g.Keys == chain0.Keys && id !in g && sp in chain0 && CoversAll(g, fcs, chain0)
    requires PastOf(g, ps) == PastEq(g, sp) + Elements(mergeset)
    requires chain == chain0[id := chain0[sp] + [id]]
    ensures id in chain && forall a :: a in mergeset ==> a in chain && a != id
    ensures forall a {:trigger MembersPresent(fcs, chain, a)} :: MembersPresent(fcs, chain, a)
  {
    forall a | a in mergeset ensures a in chain && a != id {
      assert a in Elements(mergeset);
      assert a in PastOf(g, ps);
    }
    forall a ensures MembersPresent(fcs, chain, a) {
      assert MembersPresent(fcs, chain0, a);
    }
  }

  lemma AddBlockDone(g: Graph, ps: seq<BlockId>, tp: Parents, root: BlockId, chain: Chains, fcs: Covers, id: BlockId,
                     sp: BlockId, mergeset: seq<BlockId>, tp': Parents, chain': Chains, fcs': Covers)
    requires WellFormed(g) && id !in g && (forall p :: p in ps ==> p in g) && sp in ps
    requires IsTree(tp, root, chain) && Embedded(g, tp, chain) && CoversAll(g, fcs, chain) && sp in chain
    requires PastOf(g, ps) == PastEq(g, sp) + Elements(mergeset) && Elements(mergeset) !! PastEq(g, sp)
    requires tp' == tp[id := sp] && chain' == chain[id := chain[sp] + [id]]
    requires forall a {:trigger FcsStep(fcs, fcs', chain', Elements(mergeset), id, a)} ::
               FcsStep(fcs, fcs', chain', Elements(mergeset), id, a)
    ensures Embedded(g[id := ps], tp', chain') && CoversAll(g[id := ps], fcs', chain')
  {
    assert g.Keys == chain.Keys;
    CoverageStep(g, ps, fcs, fcs', tp, root, chain, chain', id, sp, Elements(mergeset));
    LeafEmbedded(g, ps, tp, chain, id, sp);
  }

  lemma LeafEmbedded(g: Graph, ps: seq<BlockId>, tp: Parents, chain: Chains, id: BlockId, sp: BlockId)
    requires Embedded(g, tp, chain) && id !in g && sp in ps && sp in chain
    ensures Embedded(g[id := ps], tp[id := sp], chain[id := chain[sp] + [id]])
  {
    var g', tp' := g[id := ps], tp[id := sp];
    forall y | y in tp' ensures TreeEdge(g', tp', y) {
      assert y != id ==> TreeEdge(g, tp, y);
    }
  }

  lemma FcsAdvance(fcs0: Covers, before: Covers, after: Covers, chain: Chains, mergeset: seq<BlockId>, i: nat,
                   id: BlockId)
    requires i < |mergeset| && forall j, k :: 0 <= j < k < |mergeset| ==> mergeset[j] != mergeset[k]
    requires forall a {:trigger FcsStep(fcs0, before, chain, Elements(mergeset[..i]), id, a)} ::
               FcsStep(fcs0, before, chain, Elements(mergeset[..i]), id, a)
    requires forall a {:trigger MembersPresent(before, chain, a)} :: MembersPresent(before, chain, a)
    requires mergeset[i] in after && mergeset[i] in chain && id in chain
    requires after == before[mergeset[i] := after[mergeset[i]]]
    requires CoverStep(chain, CoverOf(before, mergeset[i]), after[mergeset[i]], id)
    ensures forall a {:trigger FcsStep(fcs0, after, chain, Elements(mergeset[..i + 1]), id, a)} ::
              FcsStep(fcs0, after, chain, Elements(mergeset[..i + 1]), id, a)
    ensures forall a {:trigger MembersPresent(after, chain, a)} :: MembersPresent(after, chain, a)
  {
    var m := mergeset[i];
    assert Elements(mergeset[..i + 1]) == Elements(mergeset[..i]) + {m};
    assert m !in mergeset[..i];
    var merged, merged' := Elements(mergeset[..i]), Elements(mergeset[..i + 1]);
    forall a ensures FcsStep(fcs0, after, chain, merged', id, a) && MembersPresent(after, chain, a) {
      assert FcsStep(fcs0, before, chain, merged, id, a) && MembersPresent(before, chain, a);
      if a != m {
        assert a in merged' <==> a in merged;
        assert CoverOf(after, a) == CoverOf(before, a);
      }
    }
  }


  /** `id`, having no children, is not above its own parent. */
  lemma LeafHasNoDescendants(tp: Parents, root: BlockId, chain: Chains, id: BlockId, x: BlockId)
    requires IsTree(tp, root, chain) && id in tp && TreeReach(chain, x, tp[id])
    ensures x != id
  {
    assert Linked(tp, chain, id);
    ChainPrefix(tp, root, chain, x, tp[id]);
  }

  /** A candidate anchor's interval is not empty, and the root always has room. */
  lemma AnchorFacts(tp: Parents, root: BlockId, chain: Chains, ch: map<BlockId, seq<BlockId>>, sz: map<BlockId, int>,
                    iv: Intervals, nf: Marks, id: BlockId, x: BlockId)
    requires Booked(tp, root, chain, ch, sz) && LaidBut(tp, chain, iv, nf, id) && x in chain && x != id
    requires iv[root] == Span(1, ROOT_CAPACITY) && |chain| <= ROOT_CAPACITY
    ensures x in iv && x in sz && iv[x].lo <= iv[x].hi
    ensures 0 <= sz[x] <= ROOT_CAPACITY
    ensures x !in tp ==> iv[x].lo + sz[x] <= iv[x].hi + 1
  {
    assert MarkLaid(iv, nf, x) && Sized(chain, sz, x);
    SubsetCardinality(Subtree(chain, x), chain.Keys);
    assert |chain.Keys| == |chain|;
  }

  lemma KeysAfterRelayout(tp: Parents, root: BlockId, chain: Chains, iv: Intervals, nf: Marks, iv': Intervals,
                          nf': Marks, r: BlockId)
    requires IsTree(tp, root, chain) && iv.Keys == chain.Keys && nf.Keys == chain.Keys
    requires SameOutside(chain, iv, nf, iv', nf', r) && LaidWithin(tp, chain, iv', nf', r)
    ensures iv'.Keys == chain.Keys && nf'.Keys == chain.Keys
  {
    forall x ensures (x in iv' <==> x in chain) && (x in nf' <==> x in chain) {
      if TreeReach(chain, r, x) {
        assert MarkLaid(iv', nf', x);
      }
    }
  }

  lemma RootKept(tp: Parents, root: BlockId, chain: Chains, iv: Intervals, nf: Marks, iv': Intervals, nf': Marks,
                 r: BlockId)
    requires IsTree(tp, root, chain) && root in iv && r in iv && r in iv' && iv'[r] == iv[r]
    requires SameOutside(chain, iv, nf, iv', nf', r)
    ensures root in iv' && iv'[root] == iv[root]
  {
    if r != root {
      assert TreeReach(chain, r, root) ==> r in [root];
    }
  }

  lemma ChildHasSize(tp: Parents, root: BlockId, chain: Chains, ch: map<BlockId, seq<BlockId>>, sz: map<BlockId, int>,
                     x: BlockId, c: BlockId)
    requires Booked(tp, root, chain, ch, sz) && x in chain && c in ch[x]
    ensures c in sz && sz[c] > 0
  {
    assert ChildrenListed(tp, ch, x);
    assert Linked(tp, chain, c) && Sized(chain, sz, c);
    assert c in Subtree(chain, c);
  }

  lemma {:induction false} NoSizesNoChildren(s: seq<BlockId>, sz: map<BlockId, int>)
    requires SumSizes(s, sz) == 0
    requires forall i {:trigger s[i]} :: 0 <= i < |s| ==> s[i] in sz && sz[s[i]] > 0
    ensures s == []
  {
    SumSizesPositive(s, sz);
  }

  lemma TopOfStack(tp: Parents, chain: Chains, sz: map<BlockId, int>, r: BlockId, stack: seq<Frame>, asg: Assigned,
                   done: set<BlockId>, iv: Intervals, nf: Marks)
    requires Progress(tp, chain, sz, r, asg, done, iv, nf) && stack != [] && StackOk(stack, asg, done)
    ensures var top := stack[|stack| - 1];
            && top.node in asg && top.node !in done && top.node in chain && TreeReach(chain, r, top.node)
            && asg[top.node] == Span(top.lo, top.hi)
            && top.node in sz && top.lo + sz[top.node] <= top.hi + 1
  {
    assert Stacked(stack, asg, done, |stack| - 1);
    assert Roomy(asg, sz, stack[|stack| - 1].node);
    assert stack[|stack| - 1].node in Subtree(chain, r);
  }

  /** One turn of the relayout loop. */
  lemma RelayoutStep(tp: Parents, root: BlockId, chain: Chains, ch: map<BlockId, seq<BlockId>>, sz: map<BlockId, int>,
                     r: BlockId, stack: seq<Frame>, asg: Assigned, done: set<BlockId>, iv0: Intervals, nf0: Marks,
                     iv: Intervals, nf: Marks, frames: seq<Frame>, cursor: nat)
    requires Booked(tp, root, chain, ch, sz)
    requires Progress(tp, chain, sz, r, asg, done, iv, nf) && stack != [] && StackOk(stack, asg, done)
    requires SameOutside(chain, iv0, nf0, iv, nf, r)
    requires var top := stack[|stack| - 1];
             top.node in ch && ChildFrames(ch[top.node], sz, top.lo, top.hi, frames, cursor)
    ensures var top := stack[|stack| - 1];
            var iv', nf' := iv[top.node := Span(top.lo, top.hi)], nf[top.node := cursor];
            var asg', done' := Assign(asg, frames), done + {top.node};
            && Progress(tp, chain, sz, r, asg', done', iv', nf')
            && StackOk(stack[..|stack| - 1] + frames, asg', done')
            && r in asg && r in asg' && asg'[r] == asg[r]
            && SameOutside(chain, iv0, nf0, iv', nf', r)
            && |done'| > |done| && |done'| <= |Subtree(chain, r)|
  {
    var top := stack[|stack| - 1];
    var node := top.node;
    TopOfStack(tp, chain, sz, r, stack, asg, done, iv, nf);
    assert ChildrenListed(tp, ch, node);
    hide *;
    BookedTree(tp, root, chain, ch, sz);
    FinishBlock(tp, root, chain, ch, sz, r, asg, done, iv, nf, node, frames, cursor);
    ProgressBounds(tp, chain, sz, r, asg, done, iv, nf);
    ProgressBounds(tp, chain, sz, r, Assign(asg, frames), done + {node}, iv[node := asg[node]], nf[node := cursor]);
    StackStep(stack, asg, done, frames);
    AssignKeys(asg, frames, r);
    SubsetCardinality(done + {node}, Subtree(chain, r));
    SameOutsideStep(chain, iv0, nf0, iv, nf, r, node, Span(top.lo, top.hi), cursor);
  }

  lemma BookedTree(tp: Parents, root: BlockId, chain: Chains, ch: map<BlockId, seq<BlockId>>, sz: map<BlockId, int>)
    requires Booked(tp, root, chain, ch, sz)
    ensures IsTree(tp, root, chain)
  {
  }

  lemma ProgressBounds(tp: Parents, chain: Chains, sz: map<BlockId, int>, r: BlockId, asg: Assigned, done: set<BlockId>,
                       iv: Intervals, nf: Marks)
    requires Progress(tp, chain, sz, r, asg, done, iv, nf)
    ensures r in asg && done <= asg.Keys && done <= Subtree(chain, r)
  {
  }

  lemma SameOutsideStep(chain: Chains, iv0: Intervals, nf0: Marks, iv: Intervals, nf: Marks, r: BlockId, node: BlockId,
                        span: Span, mark: nat)
    requires SameOutside(chain, iv0, nf0, iv, nf, r) && TreeReach(chain, r, node)
    ensures SameOutside(chain, iv0, nf0, iv[node := span], nf[node := mark], r)
  {
  }

  lemma NothingOutside(chain: Chains, iv: Intervals, nf: Marks, r: BlockId)
    ensures SameOutside(chain, iv, nf, iv, nf, r)
  {
  }

  lemma StartRelayout(tp: Parents, root: BlockId, chain: Chains, sz: map<BlockId, int>, r: BlockId, lo: nat, hi: nat,
                      iv: Intervals, nf: Marks)
    requires IsTree(tp, root, chain) && r in chain && r in sz && lo + sz[r] <= hi + 1
    ensures Progress(tp, chain, sz, r, map[r := Span(lo, hi)], {}, iv, nf)
    ensures StackOk([Frame(r, lo, hi)], map[r := Span(lo, hi)], {})
  {
    RootAboveAll(tp, root, chain, r);
    var stack := [Frame(r, lo, hi)];
    assert stack[0].node == r;
  }

  /** Walking one tree edge up from `x` drops exactly `x` from the chain. */
  lemma StepBelow(tp: Parents, root: BlockId, chain: Chains, x: BlockId, y: BlockId)
    requires IsTree(tp, root, chain) && TreeReach(chain, x, y)
    ensures x in chain
    ensures x !in tp ==> chain[x] == [x]
    ensures x in tp ==>
              tp[x] in chain && chain[x] == chain[tp[x]] + [x] && x !in chain[tp[x]] && TreeReach(chain, tp[x], y)
  {
    ChainPrefix(tp, root, chain, x, y);
    if x in tp {
      assert Linked(tp, chain, x);
      RootAboveAll(tp, root, chain, tp[x]);
      ReachTransitive(tp, root, chain, tp[x], x, y);
      if x in chain[tp[x]] {
        ChainPrefix(tp, root, chain, x, tp[x]);
      }
    }
  }

  lemma ChainsCount(nodes: Nodes)
    requires Lineages(nodes)
    ensures ChainsOf(nodes).Keys == nodes.Keys && |ChainsOf(nodes)| == |nodes|
  {
    var chain := ChainsOf(nodes);
    assert |chain| == |chain.Keys| && |nodes| == |nodes.Keys|;
  }

  lemma GraphKeys(nodes: Nodes)
    ensures GraphOf(nodes).Keys == nodes.Keys
  {
  }

  lemma NoLabels(iv: Intervals, nf: Marks)
    requires iv == map[] && nf == map[]
    ensures forall x :: x !in iv && x !in nf
  {
  }

  lemma KeysBuilt(tp: Parents, chain: Chains, iv0: Intervals, nf0: Marks, iv: Intervals, nf: Marks, r: BlockId)
    requires forall x :: x !in iv0 && x !in nf0
    requires SameOutside(chain, iv0, nf0, iv, nf, r)
    ensures iv.Keys <= chain.Keys && nf.Keys <= chain.Keys
  {
  }

  /** The oracle of a tree has only one set of chains. */
  lemma {:induction false} ChainsUnique(tp: Parents, root: BlockId, chain: Chains, chain': Chains, y: BlockId)
    requires IsTree(tp, root, chain) && IsTree(tp, root, chain') && y in chain
    ensures y in chain' && chain'[y] == chain[y]
    decreases |chain[y]|
  {
    if y != root {
      assert Linked(tp, chain, y) && Linked(tp, chain', y);
      ChainsUnique(tp, root, chain, chain', tp[y]);
    }
  }

  /** An oracle maintained block by block and one built afresh give the same answers,
      even where their labels and covering sets differ. */
  lemma OraclesAgree(one: Reachability, other: Reachability, g: Graph, a: BlockId, b: BlockId)
    requires one.Valid(g) && other.Valid(g)
    requires one.treeParent == other.treeParent && one.root == other.root
    ensures one.IsAncestor(a, b) <==> other.IsAncestor(a, b)
    ensures one.IsChainAncestor(a, b) <==> other.IsChainAncestor(a, b)
  {
    one.AnswersAreExact(g, a, b);
    other.AnswersAreExact(g, a, b);
    BookedTree(one.treeParent, one.root, one.chain, one.treeChildren, one.subtreeSize);
    BookedTree(other.treeParent, other.root, other.chain, other.treeChildren, other.subtreeSize);
    if b in one.chain {
      ChainsUnique(one.treeParent, one.root, one.chain, other.chain, b);
    }
    if b in other.chain {
      ChainsUnique(one.treeParent, one.root, other.chain, one.chain, b);
    }
  }
}
