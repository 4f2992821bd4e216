/** The consensus invariant of a DAG: every stored block carries exactly the data its
    past determines. */
module Consensus {
  import opened Types
  import opened Graphs
  import opened Sums
  import opened Ghostdag

  // ------------------------------------------------------------------
  // Sorting by (past size, id)

  function InsertTopo(nodes: Nodes, s: seq<BlockId>, x: BlockId): seq<BlockId>
    requires x in nodes && forall y :: y in s ==> y in nodes
  {
    if s == [] || TopoLess(nodes, x, s[0]) then [x] + s else [s[0]] + InsertTopo(nodes, s[1..], x)
  }

  function SortTopo(nodes: Nodes, s: seq<BlockId>): (r: seq<BlockId>)
    requires forall y :: y in s ==> y in nodes
    ensures forall y :: y in r ==> y in nodes
  {
    if s == [] then []
    else
      var r := SortTopo(nodes, s[1..]);
      InsertTopoMembers(nodes, r, s[0]);
      InsertTopo(nodes, r, s[0])
  }

  lemma {:induction false} InsertTopoMembers(nodes: Nodes, s: seq<BlockId>, x: BlockId)
    requires x in nodes && forall y :: y in s ==> y in nodes
    ensures forall y :: y in InsertTopo(nodes, s, x) <==> y in s || y == x
  {
    if s == [] || TopoLess(nodes, x, s[0]) {
    } else {
      InsertTopoMembers(nodes, s[1..], x);
      assert forall y :: y in s <==> y == s[0] || y in s[1..];
    }
  }

  lemma {:induction false} InsertTopoSorts(nodes: Nodes, s: seq<BlockId>, x: BlockId)
    requires x in nodes && TopoSorted(nodes, s) && x !in s
    ensures TopoSorted(nodes, InsertTopo(nodes, s, x))
  {
    if s == [] || TopoLess(nodes, x, s[0]) {
    } else {
      InsertTopoSorts(nodes, s[1..], x);
      InsertTopoMembers(nodes, s[1..], x);
      var r := InsertTopo(nodes, s[1..], x);
      forall j | 0 <= j < |r| ensures TopoLess(nodes, s[0], r[j]) {
        assert r[j] in r;
      }
    }
  }

  /** Sorting a list without duplicates lists its members. */
  lemma {:induction false} SortTopoLists(nodes: Nodes, s: seq<BlockId>)
    requires forall y :: y in s ==> y in nodes
    requires Distinct(s)
    ensures Lists(nodes, Elements(s), SortTopo(nodes, s))
  {
    if s != [] {
      SortTopoLists(nodes, s[1..]);
      var r := SortTopo(nodes, s[1..]);
      assert forall y :: y in s <==> y == s[0] || y in s[1..];
      assert forall y :: y in r <==> y in Elements(r);
      assert forall y :: y in s[1..] <==> y in Elements(s[1..]);
      InsertTopoMembers(nodes, r, s[0]);
      InsertTopoSorts(nodes, r, s[0]);
    }
  }

  lemma {:induction false} ListExists(nodes: Nodes, of: set<BlockId>)
    requires of <= nodes.Keys
    ensures exists s :: Lists(nodes, of, s)
    decreases of
  {
    if of == {} {
      assert Lists(nodes, of, []);
    } else {
      var x :| x in of;
      ListExists(nodes, of - {x});
      var s :| Lists(nodes, of - {x}, s);
      assert x !in s by {
        assert x in s ==> x in Elements(s);
      }
      InsertTopoSorts(nodes, s, x);
      InsertTopoMembers(nodes, s, x);
      assert forall y :: y in s <==> y in Elements(s);
      assert Lists(nodes, of, InsertTopo(nodes, s, x));
    }
  }

  /** The one topological listing of a set of blocks. */
  ghost function TopoOrder(nodes: Nodes, of: set<BlockId>): (s: seq<BlockId>)
    requires of <= nodes.Keys
    ensures Lists(nodes, of, s)
  {
    ListExists(nodes, of);
    var s :| Lists(nodes, of, s);
    s
  }

  // ------------------------------------------------------------------
  // Derived data

  ghost predicate Present(nodes: Nodes, ps: seq<BlockId>) {
    forall p :: p in ps ==> p in nodes
  }

  lemma ParentsStored(nodes: Nodes, ps: seq<BlockId>)
    requires Present(nodes, ps)
    ensures forall p :: p in ps ==> p in nodes
  {
  }

  ghost function MergeOrder(nodes: Nodes, ps: seq<BlockId>, sp: BlockId): (s: seq<BlockId>)
    ensures Lists(nodes, MergeSet(GraphOf(nodes), ps, sp), s)
  {
    TopoOrder(nodes, MergeSet(GraphOf(nodes), ps, sp))
  }

  /** The blue set of a new block: its selected parent's, the parent, and the blue mergeset. */
  ghost function NewBlues(nodes: Nodes, k: nat, ps: seq<BlockId>, sp: BlockId): set<BlockId>
    requires sp in nodes
  {
    Coloured(GraphOf(nodes), k, Blues(nodes, sp) + {sp}, MergeOrder(nodes, ps, sp))
  }

  /** The data a new block with parents `ps` and selected parent `sp` must get. */
  ghost function Derive(nodes: Nodes, k: nat, ps: seq<BlockId>, sp: BlockId): GhostdagData
    requires sp in nodes
  {
    var g := GraphOf(nodes);
    var (bs, rs) := Verdicts(g, k, Blues(nodes, sp) + {sp}, MergeOrder(nodes, ps, sp));
    var blues := NewBlues(nodes, k, ps, sp);
    GhostdagData(Some(sp), bs, rs, |blues|, WorkOf(nodes, blues), AnticoneSizes(g, blues))
  }

  const GENESIS_DATA := GhostdagData(None, [], [], 0, 0, map[])

  /** The stored data of `b` is what its past determines. */
  ghost predicate Derived(nodes: Nodes, k: nat, b: BlockId) {
    && b in nodes
    && nodes[b].pastSize == |Past(GraphOf(nodes), b)|
    && (match nodes[b].ghostdag.selectedParent
        case None => nodes[b].ghostdag == GENESIS_DATA
        case Some(sp) =>
          var ps := nodes[b].block.parents;
          && Present(nodes, ps) && sp in nodes && IsHeaviest(nodes, Elements(ps), sp)
          && nodes[b].ghostdag == Derive(nodes, k, ps, sp))
  }

  /** A block's blue set lies in its past and is a k-cluster. */
  ghost predicate BlueCluster(nodes: Nodes, k: nat, b: BlockId) {
    && b in nodes
    && Blues(nodes, b) <= Past(GraphOf(nodes), b)
    && IsCluster(GraphOf(nodes), k, Blues(nodes, b))
  }

  ghost predicate ChildrenKnown(nodes: Nodes, b: BlockId) {
    b in nodes && nodes[b].children == set c | c in nodes && b in GraphOf(nodes)[c]
  }

  ghost predicate IsTip(nodes: Nodes, b: BlockId) {
    b in nodes && forall c :: c in nodes ==> b !in GraphOf(nodes)[c]
  }

  ghost predicate RootedAt(nodes: Nodes, genesis: BlockId, b: BlockId) {
    b in nodes && (nodes[b].ghostdag.selectedParent.None? <==> b == genesis)
  }

  /** The invariant of the stored DAG. */
  ghost predicate Consistent(k: nat, genesis: BlockId, nodes: Nodes, tips: set<BlockId>) {
    && WellFormed(GraphOf(nodes)) && genesis in nodes
    && (forall b {:trigger RootedAt(nodes, genesis, b)} :: b in nodes ==> RootedAt(nodes, genesis, b))
    && (forall b {:trigger Derived(nodes, k, b)} :: b in nodes ==> Derived(nodes, k, b))
    && (forall b {:trigger BlueCluster(nodes, k, b)} :: b in nodes ==> BlueCluster(nodes, k, b))
    && (forall b {:trigger ChildrenKnown(nodes, b)} :: b in nodes ==> ChildrenKnown(nodes, b))
    && (forall b {:trigger IsTip(nodes, b)} :: b in tips <==> IsTip(nodes, b))
  }

  // ------------------------------------------------------------------
  // Appending a block

  /** `nodes'` is `nodes` with block `id` added: existing entries keep everything but
      their child sets. */
  ghost predicate SameEntry(nodes: Nodes, nodes': Nodes, b: BlockId) {
    b in nodes && b in nodes' && nodes'[b] == nodes[b].(children := nodes'[b].children)
  }

  ghost predicate Extends(nodes: Nodes, nodes': Nodes, id: BlockId) {
    && id !in nodes && nodes'.Keys == nodes.Keys + {id}
    && nodes'[id].ghostdag.selectedParent.Some? && Present(nodes, nodes'[id].block.parents)
    && forall b {:trigger SameEntry(nodes, nodes', b)} :: b in nodes ==> SameEntry(nodes, nodes', b)
  }

  lemma ExtendsGraph(nodes: Nodes, nodes': Nodes, id: BlockId)
    requires Extends(nodes, nodes', id) && WellFormed(GraphOf(nodes))
    ensures GraphOf(nodes') == GraphOf(nodes)[id := nodes'[id].block.parents]
    ensures WellFormed(GraphOf(nodes'))
    ensures forall b :: b in nodes ==> Past(GraphOf(nodes'), b) == Past(GraphOf(nodes), b)
    ensures Past(GraphOf(nodes'), id) == PastOf(GraphOf(nodes), nodes'[id].block.parents)
  {
    var ps := nodes'[id].block.parents;
    forall b | b in nodes ensures GraphOf(nodes')[b] == GraphOf(nodes)[b] {
      assert SameEntry(nodes, nodes', b);
    }
    assert GraphOf(nodes') == GraphOf(nodes)[id := ps];
    AppendLeaf(GraphOf(nodes), id, ps);
  }

  /** Graphs that agree on the pasts of a set of blocks agree on its anticones. */
  ghost predicate SamePasts(g: Graph, h: Graph, of: set<BlockId>) {
    forall x {:trigger Past(h, x)} :: x in of ==> Past(h, x) == Past(g, x)
  }

  lemma SameAnti(g: Graph, h: Graph, of: set<BlockId>, x: BlockId, s: set<BlockId>)
    requires SamePasts(g, h, of) && x in of && s <= of
    ensures Anti(h, x, s) == Anti(g, x, s)
  {
    forall y | y in s ensures Parallel(h, x, y) <==> Parallel(g, x, y) {
      assert Past(h, x) == Past(g, x) && Past(h, y) == Past(g, y);
    }
  }

  lemma SameFit(g: Graph, h: Graph, k: nat, of: set<BlockId>, blues: set<BlockId>, c: BlockId)
    requires SamePasts(g, h, of) && c in of && blues <= of
    ensures FitsCluster(h, k, blues, c) <==> FitsCluster(g, k, blues, c)
  {
    SameAnti(g, h, of, c, blues);
    forall y | y in blues ensures Anti(h, y, blues) == Anti(g, y, blues) {
      SameAnti(g, h, of, y, blues);
    }
  }

  lemma {:induction false} SameColouring(g: Graph, h: Graph, k: nat, of: set<BlockId>, blues: set<BlockId>,
                                         cands: seq<BlockId>)
    requires SamePasts(g, h, of) && blues <= of && forall c :: c in cands ==> c in of
    ensures Coloured(h, k, blues, cands) == Coloured(g, k, blues, cands) <= of
    ensures Verdicts(h, k, blues, cands) == Verdicts(g, k, blues, cands)
    ensures AnticoneSizes(h, Coloured(h, k, blues, cands)) == AnticoneSizes(g, Coloured(g, k, blues, cands))
  {
    if cands != [] {
      var init, c := cands[..|cands| - 1], cands[|cands| - 1];
      assert forall x :: x in init ==> x in cands;
      SameColouring(g, h, k, of, blues, init);
      SameFit(g, h, k, of, Coloured(g, k, blues, init), c);
    }
    var after := Coloured(g, k, blues, cands);
    forall x | x in after ensures Anti(h, x, after) == Anti(g, x, after) {
      SameAnti(g, h, of, x, after);
    }
  }

  /** Two DAGs agree on a block: same block, same derived data, same past. */
  ghost predicate AgreeAt(nodes: Nodes, nodes': Nodes, x: BlockId) {
    && x in nodes && x in nodes'
    && nodes'[x].block == nodes[x].block
    && nodes'[x].pastSize == nodes[x].pastSize
    && nodes'[x].ghostdag == nodes[x].ghostdag
    && Past(GraphOf(nodes'), x) == Past(GraphOf(nodes), x)
  }

  ghost predicate Agree(nodes: Nodes, nodes': Nodes, of: set<BlockId>) {
    forall x {:trigger AgreeAt(nodes, nodes', x)} :: x in of ==> AgreeAt(nodes, nodes', x)
  }

  ghost predicate PastClosed(nodes: Nodes, of: set<BlockId>) {
    forall x {:trigger Past(GraphOf(nodes), x)} :: x in of ==> Past(GraphOf(nodes), x) <= of
  }

  lemma AgreePasts(nodes: Nodes, nodes': Nodes, of: set<BlockId>)
    requires Agree(nodes, nodes', of)
    ensures SamePasts(GraphOf(nodes), GraphOf(nodes'), of) && of <= nodes.Keys && of <= nodes'.Keys
  {
    forall x | x in of ensures AgreeAt(nodes, nodes', x) {
    }
  }

  lemma AgreeMergeSet(nodes: Nodes, nodes': Nodes, of: set<BlockId>, ps: seq<BlockId>, sp: BlockId)
    requires Agree(nodes, nodes', of) && PastClosed(nodes, of) && sp in of && forall p :: p in ps ==> p in of
    ensures MergeSet(GraphOf(nodes'), ps, sp) == MergeSet(GraphOf(nodes), ps, sp) <= of
  {
    var g, h := GraphOf(nodes), GraphOf(nodes');
    AgreePasts(nodes, nodes', of);
    forall p | p in ps ensures PastEq(h, p) == PastEq(g, p) <= of {
      assert Past(h, p) == Past(g, p);
    }
    assert PastEq(h, sp) == PastEq(g, sp);
    hide Past, PastEq;
    forall a ensures a in PastOf(h, ps) <==> a in PastOf(g, ps) {
    }
  }

  lemma AgreeOrder(nodes: Nodes, nodes': Nodes, of: set<BlockId>, s: set<BlockId>)
    requires Agree(nodes, nodes', of) && s <= of && of <= nodes.Keys && of <= nodes'.Keys
    ensures TopoOrder(nodes', s) == TopoOrder(nodes, s)
  {
    var l := TopoOrder(nodes, s);
    forall i | 0 <= i < |l| ensures AgreeAt(nodes, nodes', l[i]) {
      assert l[i] in Elements(l);
    }
    ListsUnique(nodes', s, l, TopoOrder(nodes', s));
  }

  lemma AgreeWork(nodes: Nodes, nodes': Nodes, of: set<BlockId>, s: set<BlockId>)
    requires Agree(nodes, nodes', of) && s <= of && of <= nodes.Keys && of <= nodes'.Keys
    ensures WorkOf(nodes', s) == WorkOf(nodes, s)
  {
    assert s * nodes.Keys == s && s * nodes'.Keys == s;
    forall x | x in s ensures Works(nodes)[x] == Works(nodes')[x] {
      assert AgreeAt(nodes, nodes', x);
    }
    SumSame(s, Works(nodes), Works(nodes'));
  }

  /** Derived data depends only on the blocks of the past. */
  lemma AgreeDerive(nodes: Nodes, nodes': Nodes, k: nat, of: set<BlockId>, ps: seq<BlockId>, sp: BlockId)
    requires Agree(nodes, nodes', of) && PastClosed(nodes, of) && sp in of && forall p :: p in ps ==> p in of
    requires BlueCluster(nodes, k, sp)
    ensures sp in nodes' && NewBlues(nodes', k, ps, sp) == NewBlues(nodes, k, ps, sp)
    ensures Derive(nodes', k, ps, sp) == Derive(nodes, k, ps, sp)
  {
    var g, h := GraphOf(nodes), GraphOf(nodes');
    AgreePasts(nodes, nodes', of);
    AgreeMergeSet(nodes, nodes', of, ps, sp);
    AgreeOrder(nodes, nodes', of, MergeSet(g, ps, sp));
    assert AgreeAt(nodes, nodes', sp);
    assert Past(g, sp) <= of;
    var m := MergeOrder(nodes, ps, sp);
    assert forall c :: c in m ==> c in Elements(m);
    SameColouring(g, h, k, of, Blues(nodes, sp) + {sp}, m);
    AgreeWork(nodes, nodes', of, NewBlues(nodes, k, ps, sp));
  }

  lemma AgreeHeaviest(nodes: Nodes, nodes': Nodes, of: set<BlockId>, among: set<BlockId>, sp: BlockId)
    requires Agree(nodes, nodes', of) && among <= of
    ensures IsHeaviest(nodes', among, sp) <==> IsHeaviest(nodes, among, sp)
  {
    if sp in among {
      assert AgreeAt(nodes, nodes', sp);
      forall p | p in among ensures Heavier(nodes', sp, p) <==> Heavier(nodes, sp, p) {
        assert AgreeAt(nodes, nodes', p);
      }
    }
  }

  // ------------------------------------------------------------------
  // One insert keeps the invariant

  lemma {:induction false} DistinctCount(s: seq<BlockId>)
    requires Distinct(s)
    ensures |Elements(s)| == |s|
  {
    if s == [] {
      EmptyElements(s);
    } else {
      DistinctCount(s[1..]);
      assert Elements(s) == Elements(s[1..]) + {s[0]};
      assert s[0] !in s[1..];
    }
  }

  /** A list as long as its set of members repeats nothing. */
  lemma {:induction false} CountDistinct(s: seq<BlockId>)
    requires |Elements(s)| == |s|
    ensures Distinct(s)
  {
    if s != [] {
      var t := s[1..];
      assert forall x :: x in s <==> x == s[0] || x in t;
      assert Elements(s) == Elements(t) + {s[0]};
      ElementsCount(t);
      assert s[0] in t ==> Elements(s) == Elements(t);
      CountDistinct(t);
    }
  }

  lemma {:induction false} ElementsCount(s: seq<BlockId>)
    ensures |Elements(s)| <= |s|
  {
    if s != [] {
      ElementsCount(s[1..]);
      assert forall x :: x in s <==> x == s[0] || x in s[1..];
      assert Elements(s) == Elements(s[1..]) + {s[0]};
    } else {
      EmptyElements(s);
    }
  }

  lemma MergeOrderFacts(nodes: Nodes, ps: seq<BlockId>, sp: BlockId)
    ensures var m := MergeOrder(nodes, ps, sp);
            && Distinct(m)
            && |m| == |MergeSet(GraphOf(nodes), ps, sp)|
            && (forall c :: c in m <==> c in MergeSet(GraphOf(nodes), ps, sp))
  {
    var m := MergeOrder(nodes, ps, sp);
    ListHasNoDuplicates(nodes, m);
    DistinctCount(m);
    assert forall c :: c in m <==> c in Elements(m);
  }

  /** The past of a new block is its selected parent, that parent's past, and the mergeset. */
  lemma PastSplits(nodes: Nodes, ps: seq<BlockId>, sp: BlockId)
    requires sp in nodes && sp in ps && Acyclic(GraphOf(nodes))
    ensures var g := GraphOf(nodes);
            && PastOf(g, ps) == PastEq(g, sp) + MergeSet(g, ps, sp)
            && |PastOf(g, ps)| == |Past(g, sp)| + 1 + |MergeSet(g, ps, sp)|
  {
    var g := GraphOf(nodes);
    assert sp !in Past(g, sp);
    assert PastEq(g, sp) <= PastOf(g, ps);
    assert PastOf(g, ps) == PastEq(g, sp) + MergeSet(g, ps, sp);
    assert PastEq(g, sp) !! MergeSet(g, ps, sp);
    assert |PastEq(g, sp)| == |Past(g, sp)| + 1;
  }

  /** The new blue set is a k-cluster inside the new block's past, one larger than its
      selected parent's for the parent and for every blue merged. */
  lemma NewBluesFacts(nodes: Nodes, k: nat, ps: seq<BlockId>, sp: BlockId)
    requires sp in ps && BlueCluster(nodes, k, sp) && Acyclic(GraphOf(nodes))
    ensures var g, blues := GraphOf(nodes), NewBlues(nodes, k, ps, sp);
            && blues <= PastOf(g, ps) && IsCluster(g, k, blues)
            && Blues(nodes, sp) + {sp} <= blues && sp !in Blues(nodes, sp)
            && blues == Blues(nodes, sp) + {sp} + Elements(Derive(nodes, k, ps, sp).mergesetBlues)
            && |blues| == |Blues(nodes, sp)| + 1 + |Derive(nodes, k, ps, sp).mergesetBlues|
            && |Derive(nodes, k, ps, sp).mergesetBlues| + |Derive(nodes, k, ps, sp).mergesetReds| ==
               |MergeSet(g, ps, sp)|
            && Elements(Derive(nodes, k, ps, sp).mergesetBlues) + Elements(Derive(nodes, k, ps, sp).mergesetReds)
               == MergeSet(g, ps, sp)
  {
    var g, m, base := GraphOf(nodes), MergeOrder(nodes, ps, sp), Blues(nodes, sp) + {sp};
    assert sp !in Past(g, sp);
    MergeOrderFacts(nodes, ps, sp);
    PastSplits(nodes, ps, sp);
    TopAddsNothing(g, k, Blues(nodes, sp), sp);
    forall c | c in m ensures c !in base {
    }
    VerdictsPartition(g, k, base, m);
    ColouringIsCluster(g, k, base, m);
    assert |base| == |Blues(nodes, sp)| + 1;
    assert Elements(m) == MergeSet(g, ps, sp);
  }

  lemma ExtendAgrees(nodes: Nodes, nodes': Nodes, id: BlockId)
    requires Extends(nodes, nodes', id) && WellFormed(GraphOf(nodes))
    ensures Agree(nodes, nodes', nodes.Keys) && PastClosed(nodes, nodes.Keys)
  {
    ExtendsGraph(nodes, nodes', id);
    forall x | x in nodes ensures AgreeAt(nodes, nodes', x) {
      assert SameEntry(nodes, nodes', x);
    }
  }

  lemma DerivedKept(nodes: Nodes, nodes': Nodes, k: nat, id: BlockId, b: BlockId)
    requires Agree(nodes, nodes', nodes.Keys) && PastClosed(nodes, nodes.Keys)
    requires Derived(nodes, k, b)
    requires nodes[b].ghostdag.selectedParent.Some? ==> BlueCluster(nodes, k, nodes[b].ghostdag.selectedParent.value)
    ensures Derived(nodes', k, b)
  {
    assert AgreeAt(nodes, nodes', b);
    if nodes[b].ghostdag.selectedParent.Some? {
      var sp, ps := nodes[b].ghostdag.selectedParent.value, nodes[b].block.parents;
      AgreeDerive(nodes, nodes', k, nodes.Keys, ps, sp);
      forall p | p in ps ensures p in nodes' {
        assert AgreeAt(nodes, nodes', p);
      }
      AgreeHeaviest(nodes, nodes', nodes.Keys, Elements(ps), sp);
    }
  }

  lemma ClusterKept(nodes: Nodes, nodes': Nodes, k: nat, b: BlockId)
    requires Agree(nodes, nodes', nodes.Keys) && PastClosed(nodes, nodes.Keys) && BlueCluster(nodes, k, b)
    ensures BlueCluster(nodes', k, b)
  {
    var g, h, blues := GraphOf(nodes), GraphOf(nodes'), Blues(nodes, b);
    assert AgreeAt(nodes, nodes', b);
    AgreePasts(nodes, nodes', nodes.Keys);
    assert Past(g, b) <= nodes.Keys;
    forall x | x in blues ensures |Anti(h, x, blues)| <= k {
      SameAnti(g, h, nodes.Keys, x, blues);
    }
  }

  /** The entry an insert creates for a block with parents `ps`. */
  ghost predicate NewEntry(nodes: Nodes, k: nat, entry: Node, sp: BlockId) {
    var ps := entry.block.parents;
    && Present(nodes, ps) && sp in nodes && IsHeaviest(nodes, Elements(ps), sp)
    && entry.ghostdag == Derive(nodes, k, ps, sp)
    && entry.pastSize == nodes[sp].pastSize + 1 + |entry.ghostdag.mergesetBlues| + |entry.ghostdag.mergesetReds|
    && entry.children == {}
  }

  lemma NewEntryDerived(nodes: Nodes, nodes': Nodes, k: nat, id: BlockId, sp: BlockId)
    requires Extends(nodes, nodes', id) && WellFormed(GraphOf(nodes)) && NewEntry(nodes, k, nodes'[id], sp)
    requires BlueCluster(nodes, k, sp) && Derived(nodes, k, sp)
    ensures Derived(nodes', k, id)
  {
    var ps := nodes'[id].block.parents;
    ExtendsGraph(nodes, nodes', id);
    ExtendAgrees(nodes, nodes', id);
    assert sp in ps;
    PastSplits(nodes, ps, sp);
    NewBluesFacts(nodes, k, ps, sp);
    AgreeDerive(nodes, nodes', k, nodes.Keys, ps, sp);
    AgreeHeaviest(nodes, nodes', nodes.Keys, Elements(ps), sp);
    hide *;
    EntryDerived(nodes, nodes', k, id, sp);
  }

  lemma EntryDerived(nodes: Nodes, nodes': Nodes, k: nat, id: BlockId, sp: BlockId)
    requires id in nodes' && nodes'.Keys == nodes.Keys + {id} && NewEntry(nodes, k, nodes'[id], sp)
    requires var ps := nodes'[id].block.parents;
             && Past(GraphOf(nodes'), id) == PastOf(GraphOf(nodes), ps)
             && nodes[sp].pastSize == |Past(GraphOf(nodes), sp)|
             && |PastOf(GraphOf(nodes), ps)| == |Past(GraphOf(nodes), sp)| + 1 + |MergeSet(GraphOf(nodes), ps, sp)|
             && |Derive(nodes, k, ps, sp).mergesetBlues| + |Derive(nodes, k, ps, sp).mergesetReds|
                == |MergeSet(GraphOf(nodes), ps, sp)|
             && sp in nodes' && Derive(nodes', k, ps, sp) == Derive(nodes, k, ps, sp)
             && IsHeaviest(nodes', Elements(ps), sp)
    ensures Derived(nodes', k, id)
  {
    hide Past, PastOf, MergeSet, GraphOf, NewBlues, IsHeaviest;
    assert nodes'[id].ghostdag.selectedParent == Some(sp);
  }

  lemma NewEntryCluster(nodes: Nodes, nodes': Nodes, k: nat, id: BlockId, sp: BlockId)
    requires Extends(nodes, nodes', id) && WellFormed(GraphOf(nodes)) && NewEntry(nodes, k, nodes'[id], sp)
    requires BlueCluster(nodes, k, sp)
    ensures BlueCluster(nodes', k, id)
  {
    var ps := nodes'[id].block.parents;
    var g, h := GraphOf(nodes), GraphOf(nodes');
    var blues := NewBlues(nodes, k, ps, sp);
    ExtendsGraph(nodes, nodes', id);
    ExtendAgrees(nodes, nodes', id);
    assert sp in ps && Blues(nodes', id) == blues;
    NewBluesFacts(nodes, k, ps, sp);
    AgreePasts(nodes, nodes', nodes.Keys);
    assert PastOf(g, ps) <= nodes.Keys;
    hide Past, PastOf, NewBlues, Extends, WellFormed, Agree, PastClosed, NewEntry, GraphOf;
    forall x | x in blues ensures |Anti(h, x, blues)| <= k {
      SameAnti(g, h, nodes.Keys, x, blues);
    }
  }

  ghost predicate ChildrenStep(nodes: Nodes, nodes': Nodes, id: BlockId, b: BlockId) {
    && b in nodes && b in nodes' && id in nodes'
    && nodes'[b].children == nodes[b].children + if b in nodes'[id].block.parents then {id} else {}
  }

  /** `Dag::insert` keeps the invariant: the new entry is right, and no stored one
      goes stale. */
  lemma ConsistentStep(k: nat, genesis: BlockId, nodes: Nodes, tips: set<BlockId>, nodes': Nodes, id: BlockId,
                       sp: BlockId)
    requires Consistent(k, genesis, nodes, tips)
    requires Extends(nodes, nodes', id) && NewEntry(nodes, k, nodes'[id], sp)
    requires forall b {:trigger ChildrenStep(nodes, nodes', id, b)} :: b in nodes ==> ChildrenStep(nodes, nodes', id, b)
    ensures Consistent(k, genesis, nodes', tips - Elements(nodes'[id].block.parents) + {id})
  {
    var tips' := tips - Elements(nodes'[id].block.parents) + {id};
    ExtendsGraph(nodes, nodes', id);
    ExtendAgrees(nodes, nodes', id);
    forall b | b in nodes' ensures RootedAt(nodes', genesis, b) {
      if b != id {
        assert RootedAt(nodes, genesis, b) && SameEntry(nodes, nodes', b);
      }
    }
    forall b | b in nodes' ensures Derived(nodes', k, b) && BlueCluster(nodes', k, b) {
      StepDerived(k, genesis, nodes, tips, nodes', id, sp, b);
    }
    forall b | b in nodes' ensures ChildrenKnown(nodes', b) {
      StepChildren(k, genesis, nodes, tips, nodes', id, b);
    }
    forall b ensures b in tips' <==> IsTip(nodes', b) {
      StepTips(k, genesis, nodes, tips, nodes', id, b);
    }
  }

  lemma StepDerived(k: nat, genesis: BlockId, nodes: Nodes, tips: set<BlockId>, nodes': Nodes, id: BlockId, sp: BlockId,
                    b: BlockId)
    requires Consistent(k, genesis, nodes, tips) && b in nodes'
    requires Extends(nodes, nodes', id) && NewEntry(nodes, k, nodes'[id], sp)
    ensures Derived(nodes', k, b) && BlueCluster(nodes', k, b)
  {
    if b == id {
      assert BlueCluster(nodes, k, sp) && Derived(nodes, k, sp);
      NewEntryDerived(nodes, nodes', k, id, sp);
      NewEntryCluster(nodes, nodes', k, id, sp);
    } else {
      ExtendAgrees(nodes, nodes', id);
      assert Derived(nodes, k, b) && BlueCluster(nodes, k, b);
      if nodes[b].ghostdag.selectedParent.Some? {
        assert BlueCluster(nodes, k, nodes[b].ghostdag.selectedParent.value);
      }
      DerivedKept(nodes, nodes', k, id, b);
      ClusterKept(nodes, nodes', k, b);
    }
  }

  lemma StepChildren(k: nat, genesis: BlockId, nodes: Nodes, tips: set<BlockId>, nodes': Nodes, id: BlockId, b: BlockId)
    requires Consistent(k, genesis, nodes, tips) && b in nodes'
    requires Extends(nodes, nodes', id) && nodes'[id].children == {}
    requires forall b {:trigger ChildrenStep(nodes, nodes', id, b)} :: b in nodes ==> ChildrenStep(nodes, nodes', id, b)
    ensures ChildrenKnown(nodes', b)
  {
    var g, h := GraphOf(nodes), GraphOf(nodes');
    ExtendsGraph(nodes, nodes', id);
    assert Closed(g);
    if b != id {
      assert ChildrenKnown(nodes, b) && ChildrenStep(nodes, nodes', id, b);
      hide GraphOf, WellFormed, Consistent, Extends;
      assert h == g[id := nodes'[id].block.parents] && g.Keys == nodes.Keys;
      assert nodes'[b].children == set c | c in nodes' && b in h[c];
    } else {
      assert ChildrenKnown(nodes', id) by {
        NoChildYet(nodes, nodes', id);
      }
    }
  }

  /** No stored block lists the new one, and it does not list itself. */
  lemma NoChildYet(nodes: Nodes, nodes': Nodes, id: BlockId)
    requires Extends(nodes, nodes', id) && WellFormed(GraphOf(nodes)) && nodes'[id].children == {}
    ensures ChildrenKnown(nodes', id)
  {
    var g, h, ps := GraphOf(nodes), GraphOf(nodes'), nodes'[id].block.parents;
    ExtendsGraph(nodes, nodes', id);
    assert Closed(g) && id !in g && g.Keys == nodes.Keys && id !in ps;
    hide GraphOf, WellFormed, Extends, Closed;
    forall c | c in nodes' ensures c in h && id !in h[c] {
      if c != id {
        assert c in g && h[c] == g[c];
        ChildInside(g, c, id);
      }
    }
    assert nodes'[id].children == set c | c in nodes' && id in h[c];
  }

  lemma ChildInside(g: Graph, c: BlockId, id: BlockId)
    requires Closed(g) && c in g && id !in g
    ensures id !in g[c]
  {
  }

  lemma StepTips(k: nat, genesis: BlockId, nodes: Nodes, tips: set<BlockId>, nodes': Nodes, id: BlockId, b: BlockId)
    requires Consistent(k, genesis, nodes, tips) && Extends(nodes, nodes', id)
    ensures b in tips - Elements(nodes'[id].block.parents) + {id} <==> IsTip(nodes', b)
  {
    var g, h, ps := GraphOf(nodes), GraphOf(nodes'), nodes'[id].block.parents;
    ExtendsGraph(nodes, nodes', id);
    assert Closed(g);
    assert b in tips <==> IsTip(nodes, b);
    hide GraphOf, WellFormed, Consistent, Extends;
    assert h == g[id := ps] && g.Keys == nodes.Keys && nodes'.Keys == nodes.Keys + {id};
    assert h[id] == ps;
    if IsTip(nodes', b) && b != id {
      forall c | c in nodes ensures b !in g[c] {
        assert h[c] == g[c];
      }
    }
    forall c | c in nodes' && c != id ensures h[c] == g[c] {
    }
  }
}
