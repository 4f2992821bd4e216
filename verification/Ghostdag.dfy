/** What the derived data of a block must be, stated over the DAG's ancestor relation:
    selected parent, mergeset and its order, and the k-cluster colouring. */
module Ghostdag {
  import opened Types
  import opened Graphs
  import opened Blocks
  import opened Sums
  import Trees

  datatype GhostdagData = GhostdagData(
    selectedParent: Option<BlockId>,
    mergesetBlues: seq<BlockId>,
    mergesetReds: seq<BlockId>,
    blueScore: nat,
    blueWork: int,
    blueAnticoneSizes: map<BlockId, int>)

  datatype Node = Node(block: Block, pastSize: nat, children: set<BlockId>, ghostdag: GhostdagData)

  type Nodes = map<BlockId, Node>

  /** The parent edges. Genesis has none, whatever its block lists. */
  ghost function GraphOf(nodes: Nodes): Graph {
    map b | b in nodes :: if nodes[b].ghostdag.selectedParent.None? then [] else nodes[b].block.parents
  }

  ghost function SelectedParents(nodes: Nodes): Trees.Parents {
    map b | b in nodes && nodes[b].ghostdag.selectedParent.Some? :: nodes[b].ghostdag.selectedParent.value
  }

  ghost function Works(nodes: Nodes): map<BlockId, int> {
    map b | b in nodes :: nodes[b].block.work
  }

  /** Total work of a set of blocks. */
  ghost function WorkOf(nodes: Nodes, blocks: set<BlockId>): int {
    Sum(blocks * nodes.Keys, Works(nodes))
  }

  // ------------------------------------------------------------------
  // Chain selection

  datatype Key = Key(work: int, score: nat, id: BlockId)

  /** Heavier blue work wins, then higher blue score, then the larger id. */
  predicate KeyLess(a: Key, b: Key) {
    || a.work < b.work
    || (a.work == b.work && (a.score < b.score || (a.score == b.score && a.id < b.id)))
  }

  function ChainKey(nodes: Nodes, b: BlockId): Key
    requires b in nodes
  {
    Key(nodes[b].ghostdag.blueWork, nodes[b].ghostdag.blueScore, b)
  }

  ghost predicate Heavier(nodes: Nodes, a: BlockId, b: BlockId) {
    a in nodes && b in nodes && (a == b || KeyLess(ChainKey(nodes, b), ChainKey(nodes, a)))
  }

  ghost predicate IsHeaviest(nodes: Nodes, among: set<BlockId>, sp: BlockId) {
    sp in among && forall p {:trigger Heavier(nodes, sp, p)} :: p in among ==> Heavier(nodes, sp, p)
  }

  lemma HeaviestUnique(nodes: Nodes, among: set<BlockId>, a: BlockId, b: BlockId)
    requires IsHeaviest(nodes, among, a) && IsHeaviest(nodes, among, b)
    ensures a == b
  {
    assert Heavier(nodes, a, b) && Heavier(nodes, b, a);
  }

  // ------------------------------------------------------------------
  // Topological order

  predicate TopoLess(nodes: Nodes, a: BlockId, b: BlockId)
    requires a in nodes && b in nodes
  {
    || nodes[a].pastSize < nodes[b].pastSize
    || (nodes[a].pastSize == nodes[b].pastSize && a < b)
  }

  ghost predicate TopoSorted(nodes: Nodes, s: seq<BlockId>) {
    && (forall x :: x in s ==> x in nodes)
    && (forall i, j :: 0 <= i < j < |s| ==> TopoLess(nodes, s[i], s[j]))
  }

  /** `s` lists exactly the blocks of `of`, in topological order. */
  ghost predicate Lists(nodes: Nodes, of: set<BlockId>, s: seq<BlockId>) {
    TopoSorted(nodes, s) && Elements(s) == of
  }

  /** There is only one way to list a set of blocks. */
  lemma {:induction false} ListsUnique(nodes: Nodes, of: set<BlockId>, s: seq<BlockId>, t: seq<BlockId>)
    requires Lists(nodes, of, s) && Lists(nodes, of, t)
    ensures s == t
    decreases |s|
  {
    if s == [] || t == [] {
      EmptyElements(s);
      EmptyElements(t);
    } else {
      assert s[0] in Elements(t) && t[0] in Elements(s);
      assert s[0] == t[0];
      ListTail(nodes, of, s);
      ListTail(nodes, of, t);
      ListsUnique(nodes, of - {s[0]}, s[1..], t[1..]);
      assert s == [s[0]] + s[1..] && t == [t[0]] + t[1..];
    }
  }

  lemma EmptyElements(s: seq<BlockId>)
    ensures Elements(s) == {} <==> s == []
  {
    if s != [] {
      assert s[0] in Elements(s);
    }
  }

  lemma ListTail(nodes: Nodes, of: set<BlockId>, s: seq<BlockId>)
    requires Lists(nodes, of, s) && s != []
    ensures Lists(nodes, of - {s[0]}, s[1..])
  {
    assert forall x :: x in s <==> x == s[0] || x in s[1..];
    assert s[0] !in s[1..];
  }

  lemma ListHasNoDuplicates(nodes: Nodes, s: seq<BlockId>)
    requires TopoSorted(nodes, s)
    ensures Distinct(s)
  {
  }

  // ------------------------------------------------------------------
  // Mergeset and colouring

  /** The past of a block with parents `ps` that its selected parent does not have. */
  ghost function MergeSet(g: Graph, ps: seq<BlockId>, sp: BlockId): set<BlockId> {
    PastOf(g, ps) - PastEq(g, sp)
  }

  ghost predicate Parallel(g: Graph, a: BlockId, b: BlockId) {
    a != b && a !in Past(g, b) && b !in Past(g, a)
  }

  /** The members of `of` in the anticone of `x`. */
  ghost function Anti(g: Graph, x: BlockId, of: set<BlockId>): set<BlockId> {
    set y | y in of && Parallel(g, x, y)
  }

  /** The k-cluster rule: adding `c` leaves every blue anticone at most `k`. */
  ghost predicate FitsCluster(g: Graph, k: nat, blues: set<BlockId>, c: BlockId) {
    && |Anti(g, c, blues)| <= k
    && forall y {:trigger Anti(g, y, blues)} :: y in Anti(g, c, blues) ==> |Anti(g, y, blues)| < k
  }

  /** The blue set after considering the candidates in order. */
  ghost function Coloured(g: Graph, k: nat, blues: set<BlockId>, cands: seq<BlockId>): set<BlockId> {
    if cands == [] then blues
    else
      var before := Coloured(g, k, blues, cands[..|cands| - 1]);
      var c := cands[|cands| - 1];
      if FitsCluster(g, k, before, c) then before + {c} else before
  }

  /** The candidates that turned blue, in order, and those that turned red. */
  ghost function Verdicts(g: Graph, k: nat, blues: set<BlockId>, cands: seq<BlockId>): (seq<BlockId>, seq<BlockId>) {
    if cands == [] then ([], [])
    else
      var init, c := cands[..|cands| - 1], cands[|cands| - 1];
      var (bs, rs) := Verdicts(g, k, blues, init);
      if FitsCluster(g, k, Coloured(g, k, blues, init), c) then (bs + [c], rs) else (bs, rs + [c])
  }

  /** For every blue block, how many blues lie in its anticone. */
  ghost function AnticoneSizes(g: Graph, blues: set<BlockId>): map<BlockId, int> {
    map x | x in blues :: |Anti(g, x, blues)|
  }

  ghost predicate IsCluster(g: Graph, k: nat, blues: set<BlockId>) {
    forall x {:trigger Anti(g, x, blues)} :: x in blues ==> |Anti(g, x, blues)| <= k
  }

  /** A block's blue set, read off the map that records it. */
  ghost function Blues(nodes: Nodes, b: BlockId): set<BlockId>
    requires b in nodes
  {
    nodes[b].ghostdag.blueAnticoneSizes.Keys
  }

  lemma ParallelSymmetric(g: Graph, a: BlockId, b: BlockId)
    ensures Parallel(g, a, b) <==> Parallel(g, b, a)
  {
  }

  /** Adding `c` bumps exactly the anticone sizes of the blues parallel to it. */
  lemma AntiGrows(g: Graph, blues: set<BlockId>, c: BlockId, x: BlockId)
    requires c !in blues
    ensures |Anti(g, x, blues + {c})| == |Anti(g, x, blues)| + if Parallel(g, x, c) then 1 else 0
  {
    if Parallel(g, x, c) {
      assert Anti(g, x, blues + {c}) == Anti(g, x, blues) + {c};
    } else {
      assert Anti(g, x, blues + {c}) == Anti(g, x, blues);
    }
  }

  lemma AntiSelf(g: Graph, blues: set<BlockId>, c: BlockId)
    ensures Anti(g, c, blues + {c}) == Anti(g, c, blues)
  {
  }

  /** A candidate that fits keeps the set a k-cluster. */
  lemma ClusterGrows(g: Graph, k: nat, blues: set<BlockId>, c: BlockId)
    requires IsCluster(g, k, blues) && c !in blues && FitsCluster(g, k, blues, c)
    ensures IsCluster(g, k, blues + {c})
  {
    forall x | x in blues + {c} ensures |Anti(g, x, blues + {c})| <= k {
      AntiGrows(g, blues, c, x);
      ParallelSymmetric(g, x, c);
      if x == c {
        AntiSelf(g, blues, c);
      } else if Parallel(g, x, c) {
        assert x in Anti(g, c, blues);
      }
    }
  }

  lemma InitDistinct(cands: seq<BlockId>)
    requires cands != [] && Distinct(cands)
    ensures cands[|cands| - 1] !in cands[..|cands| - 1]
    ensures forall x :: x in cands <==> x in cands[..|cands| - 1] || x == cands[|cands| - 1]
  {
    assert cands == cands[..|cands| - 1] + [cands[|cands| - 1]];
  }

  lemma Snoc(s: seq<BlockId>, c: BlockId)
    ensures Elements(s + [c]) == Elements(s) + {c}
  {
    assert forall x :: x in s + [c] <==> x in s || x == c;
  }

  /** What a run of verdicts adds up to. */
  ghost predicate Adds(blues: set<BlockId>, cands: seq<BlockId>, after: set<BlockId>, bs: seq<BlockId>,
                       rs: seq<BlockId>) {
    && after == blues + Elements(bs)
    && Elements(bs) + Elements(rs) == Elements(cands)
    && |bs| + |rs| == |cands|
    && |after| == |blues| + |bs|
  }

  lemma AddsStep(blues: set<BlockId>, init: seq<BlockId>, c: BlockId, before: set<BlockId>, bs: seq<BlockId>,
                 rs: seq<BlockId>, cands: seq<BlockId>, after: set<BlockId>, bs': seq<BlockId>, rs': seq<BlockId>,
                 fits: bool)
    requires Adds(blues, init, before, bs, rs) && c !in init && c !in blues && cands == init + [c]
    requires if fits then after == before + {c} && bs' == bs + [c] && rs' == rs
             else after == before && bs' == bs && rs' == rs + [c]
    ensures c !in before
    ensures Adds(blues, cands, after, bs', rs')
  {
    Snoc(init, c);
    Snoc(bs, c);
    Snoc(rs, c);
    assert c !in Elements(init);
    assert |before + {c}| == |before| + 1;
  }

  /** Every candidate gets exactly one verdict, and the blue set grows by the blue ones. */
  lemma {:induction false} VerdictsPartition(g: Graph, k: nat, blues: set<BlockId>, cands: seq<BlockId>)
    requires Distinct(cands)
    requires forall c :: c in cands ==> c !in blues
    ensures Adds(blues, cands, Coloured(g, k, blues, cands), Verdicts(g, k, blues, cands).0,
                 Verdicts(g, k, blues, cands).1)
  {
    if cands != [] {
      var init, c := cands[..|cands| - 1], cands[|cands| - 1];
      InitDistinct(cands);
      VerdictsPartition(g, k, blues, init);
      var before := Coloured(g, k, blues, init);
      var (bs, rs) := Verdicts(g, k, blues, init);
      assert cands == init + [c];
      AddsStep(blues, init, c, before, bs, rs, cands, Coloured(g, k, blues, cands),
               Verdicts(g, k, blues, cands).0, Verdicts(g, k, blues, cands).1, FitsCluster(g, k, before, c));
    }
  }

  /** Colouring keeps the blue set a k-cluster. */
  lemma {:induction false} ColouringIsCluster(g: Graph, k: nat, blues: set<BlockId>, cands: seq<BlockId>)
    requires IsCluster(g, k, blues)
    requires Distinct(cands)
    requires forall c :: c in cands ==> c !in blues
    ensures IsCluster(g, k, Coloured(g, k, blues, cands))
  {
    if cands != [] {
      var init, c := cands[..|cands| - 1], cands[|cands| - 1];
      InitDistinct(cands);
      ColouringIsCluster(g, k, blues, init);
      VerdictsPartition(g, k, blues, init);
      var before := Coloured(g, k, blues, init);
      assert c !in before;
      if FitsCluster(g, k, before, c) {
        ClusterGrows(g, k, before, c);
      }
    }
  }

  /** A block above the whole set is in nobody's anticone. */
  lemma TopAddsNothing(g: Graph, k: nat, blues: set<BlockId>, sp: BlockId)
    requires IsCluster(g, k, blues) && blues <= Past(g, sp) && sp !in blues
    ensures IsCluster(g, k, blues + {sp})
    ensures AnticoneSizes(g, blues + {sp}) == AnticoneSizes(g, blues)[sp := 0]
  {
    forall x | x in blues + {sp} ensures |Anti(g, x, blues + {sp})| == if x == sp then 0 else |Anti(g, x, blues)| {
      AntiGrows(g, blues, sp, x);
      if x == sp {
        assert Anti(g, sp, blues) == {};
      }
    }
  }
}
