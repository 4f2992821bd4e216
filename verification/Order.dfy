/** The total order GHOSTDAG induces, as a function of the stored DAG. */
module Order {
  import opened Types
  import opened Graphs
  import opened Ghostdag
  import opened Consensus
  import opened ChainSelection

  /** Where a block sits relative to its parents in a list of blocks. */
  ghost predicate ParentsBefore(g: Graph, s: seq<BlockId>, i: nat) {
    i < |s| && s[i] in g && forall p :: p in g[s[i]] ==> p in s[..i]
  }

  /** A list without repetitions in which every block comes after its parents. */
  ghost predicate Topological(g: Graph, s: seq<BlockId>) {
    && Distinct(s)
    && (forall i {:trigger ParentsBefore(g, s, i)} :: 0 <= i < |s| ==> ParentsBefore(g, s, i))
  }

  ghost predicate Lineage(nodes: Nodes, b: BlockId) {
    b in nodes && (nodes[b].ghostdag.selectedParent.Some? ==>
      nodes[b].ghostdag.selectedParent.value in nodes &&
      |Past(GraphOf(nodes), nodes[b].ghostdag.selectedParent.value)| < |Past(GraphOf(nodes), b)|)
  }

  ghost predicate Lineages(nodes: Nodes) {
    forall b {:trigger Lineage(nodes, b)} :: b in nodes ==> Lineage(nodes, b)
  }

  lemma ConsistentLineages(k: nat, genesis: BlockId, nodes: Nodes, tips: set<BlockId>)
    requires Consistent(k, genesis, nodes, tips)
    ensures Lineages(nodes)
  {
    forall b | b in nodes ensures Lineage(nodes, b) {
      if b != genesis {
        BlueBase(k, genesis, nodes, tips, b);
        PastShrinks(GraphOf(nodes), nodes[b].ghostdag.selectedParent.value, b);
      } else {
        assert RootedAt(nodes, genesis, b);
      }
    }
  }

  /** A block's mergeset in order; empty for genesis. */
  ghost function MergesetOf(nodes: Nodes, b: BlockId): seq<BlockId>
    requires b in nodes
  {
    match nodes[b].ghostdag.selectedParent
    case None => []
    case Some(sp) => MergeOrder(nodes, nodes[b].block.parents, sp)
  }

  /** order(B) = order(selected parent) ++ mergeset(B) ++ [B] */
  ghost function OrderOf(nodes: Nodes, b: BlockId): seq<BlockId>
    requires b in nodes && Lineages(nodes)
    decreases |Past(GraphOf(nodes), b)|
  {
    assert Lineage(nodes, b);
    match nodes[b].ghostdag.selectedParent
    case None => [b]
    case Some(sp) => OrderOf(nodes, sp) + MergesetOf(nodes, b) + [b]
  }

  /** The selected chain from genesis up to `b`. */
  ghost function ChainTo(nodes: Nodes, b: BlockId): seq<BlockId>
    requires b in nodes && Lineages(nodes)
    decreases |Past(GraphOf(nodes), b)|
  {
    assert Lineage(nodes, b);
    match nodes[b].ghostdag.selectedParent
    case None => [b]
    case Some(sp) => ChainTo(nodes, sp) + [b]
  }

  /** The whole order seen from selected tip `tip`: its own order, then everything
      outside its past. */
  ghost function Linearization(nodes: Nodes, tip: BlockId): seq<BlockId>
    requires tip in nodes && Lineages(nodes)
  {
    OrderOf(nodes, tip) + TopoOrder(nodes, nodes.Keys - PastEq(GraphOf(nodes), tip))
  }

  ghost predicate Subsequence(s: seq<BlockId>, t: seq<BlockId>)
    decreases |t|
  {
    if s == [] then true
    else t != [] && (if s[|s| - 1] == t[|t| - 1] then Subsequence(s[..|s| - 1], t[..|t| - 1])
                     else Subsequence(s, t[..|t| - 1]))
  }

  // ------------------------------------------------------------------

  lemma ConcatMembers(s: seq<BlockId>, t: seq<BlockId>)
    ensures Elements(s + t) == Elements(s) + Elements(t)
  {
    forall x | x in s ensures x in s + t {
      var i :| 0 <= i < |s| && s[i] == x;
      assert (s + t)[i] == x;
    }
    forall x | x in t ensures x in s + t {
      var i :| 0 <= i < |t| && t[i] == x;
      assert (s + t)[|s| + i] == x;
    }
  }

  /** Parent `p` of block `x` is listed in `s`, or is itself in `of` and sorts before `x`. */
  ghost predicate ParentListed(nodes: Nodes, g: Graph, s: seq<BlockId>, of: set<BlockId>, x: BlockId, p: BlockId) {
    x in of && x in g && p in g[x] ==>
      p in s || (p in of && p in nodes && x in nodes && TopoLess(nodes, p, x))
  }

  /** Listing further blocks topologically after a topological list keeps it topological,
      when all their parents are listed. */
  lemma AppendListed(nodes: Nodes, g: Graph, s: seq<BlockId>, of: set<BlockId>, t: seq<BlockId>)
    requires Topological(g, s) && Lists(nodes, of, t) && of !! Elements(s) && of <= g.Keys
    requires forall x, p {:trigger ParentListed(nodes, g, s, of, x, p)} :: ParentListed(nodes, g, s, of, x, p)
    ensures Topological(g, s + t) && Elements(s + t) == Elements(s) + of
  {
    var u := s + t;
    ConcatMembers(s, t);
    ListHasNoDuplicates(nodes, t);
    assert forall x :: x in t <==> x in of by {
      assert forall x :: x in t <==> x in Elements(t);
    }
    forall i, j | 0 <= i < j < |u| ensures u[i] != u[j] {
      if j >= |s| {
        assert u[j] == t[j - |s|] && u[j] in of;
        if i < |s| {
          assert u[i] == s[i] && s[i] in Elements(s);
        }
      }
    }
    forall i | 0 <= i < |u| ensures ParentsBefore(g, u, i) {
      AppendListedAt(nodes, g, s, of, t, i);
    }
  }

  lemma AppendListedAt(nodes: Nodes, g: Graph, s: seq<BlockId>, of: set<BlockId>, t: seq<BlockId>, i: nat)
    requires Topological(g, s) && TopoSorted(nodes, t) && of <= g.Keys
    requires forall x :: x in t <==> x in of
    requires forall x, p {:trigger ParentListed(nodes, g, s, of, x, p)} :: ParentListed(nodes, g, s, of, x, p)
    requires i < |s + t|
    ensures ParentsBefore(g, s + t, i)
  {
    var u := s + t;
    if i < |s| {
      assert ParentsBefore(g, s, i);
      assert u[..i] == s[..i];
    } else {
      var x := t[i - |s|];
      assert u[i] == x && x in of;
      forall p | p in g[x] ensures p in u[..i] {
        assert ParentListed(nodes, g, s, of, x, p);
        if p in s {
          var m :| 0 <= m < |s| && s[m] == p;
          assert u[..i][m] == p;
        } else {
          var m :| 0 <= m < |t| && t[m] == p;
          assert m < i - |s|;
          assert u[..i][|s| + m] == p;
        }
      }
    }
  }

  lemma AppendOne(g: Graph, s: seq<BlockId>, b: BlockId)
    requires Topological(g, s) && b !in s && b in g && forall p :: p in g[b] ==> p in s
    ensures Topological(g, s + [b]) && Elements(s + [b]) == Elements(s) + {b}
  {
    var u := s + [b];
    ConcatMembers(s, [b]);
    forall i | 0 <= i < |u| ensures ParentsBefore(g, u, i) {
      if i < |s| {
        assert ParentsBefore(g, s, i);
      }
      assert u[..i] == s[..i];
    }
  }

  /** Ancestors have smaller pasts, so they sort first. */
  lemma ParentSortsFirst(k: nat, genesis: BlockId, nodes: Nodes, tips: set<BlockId>, p: BlockId, x: BlockId)
    requires Consistent(k, genesis, nodes, tips) && x in nodes && p in GraphOf(nodes)[x]
    ensures p in nodes && TopoLess(nodes, p, x)
  {
    ParentIsAnc(GraphOf(nodes), x, p);
    PastShrinks(GraphOf(nodes), p, x);
    NodeFacts(k, genesis, nodes, tips, x);
    NodeFacts(k, genesis, nodes, tips, p);
  }

  /** The order of a block lists exactly its past and itself, each once, parents first. */
  lemma {:induction false} OrderOfIsTopological(k: nat, genesis: BlockId, nodes: Nodes, tips: set<BlockId>, b: BlockId)
    requires Consistent(k, genesis, nodes, tips) && Lineages(nodes) && b in nodes
    ensures Topological(GraphOf(nodes), OrderOf(nodes, b))
    ensures Elements(OrderOf(nodes, b)) == PastEq(GraphOf(nodes), b)
    decreases |Past(GraphOf(nodes), b)|
  {
    var g := GraphOf(nodes);
    NodeFacts(k, genesis, nodes, tips, b);
    PastUnfold(g, b);
    if b == genesis {
      assert Topological(g, []);
      assert g[b] == [];
      AppendOne(g, [], b);
      assert OrderOf(nodes, b) == [] + [b];
    } else {
      BlueBase(k, genesis, nodes, tips, b);
      var sp, ps := nodes[b].ghostdag.selectedParent.value, nodes[b].block.parents;
      assert Lineage(nodes, b);
      OrderOfIsTopological(k, genesis, nodes, tips, sp);
      PastSplits(nodes, ps, sp);
      OrderStep(k, genesis, nodes, tips, b, OrderOf(nodes, sp), sp, ps);
    }
  }

  lemma MergeParentsListed(k: nat, genesis: BlockId, nodes: Nodes, tips: set<BlockId>, s: seq<BlockId>,
                           inner: set<BlockId>, all: set<BlockId>, x: BlockId, p: BlockId)
    requires Consistent(k, genesis, nodes, tips) && Elements(s) == inner && all <= nodes.Keys
    requires x in all ==> Past(GraphOf(nodes), x) <= all
    ensures ParentListed(nodes, GraphOf(nodes), s, all - inner, x, p)
  {
    var g := GraphOf(nodes);
    if x in all - inner && p in g[x] {
      ParentSortsFirst(k, genesis, nodes, tips, p, x);
      ParentIsAnc(g, x, p);
      assert p in Past(g, x);
      assert p in Elements(s) ==> p in s;
    }
  }

  lemma OrderStep(k: nat, genesis: BlockId, nodes: Nodes, tips: set<BlockId>, b: BlockId, s: seq<BlockId>, sp: BlockId,
                  ps: seq<BlockId>)
    requires Consistent(k, genesis, nodes, tips) && b in nodes && GraphOf(nodes)[b] == ps && sp in ps
    requires Topological(GraphOf(nodes), s) && Elements(s) == PastEq(GraphOf(nodes), sp)
    requires Past(GraphOf(nodes), b) == PastOf(GraphOf(nodes), ps)
    requires PastOf(GraphOf(nodes), ps) == PastEq(GraphOf(nodes), sp) + MergeSet(GraphOf(nodes), ps, sp)
    ensures var o := s + MergeOrder(nodes, ps, sp) + [b];
            Topological(GraphOf(nodes), o) && Elements(o) == PastEq(GraphOf(nodes), b)
  {
    var g, m := GraphOf(nodes), MergeOrder(nodes, ps, sp);
    var of := MergeSet(g, ps, sp);
    forall x, p ensures ParentListed(nodes, g, s, of, x, p) {
      if x in Past(g, b) {
        PastSubset(g, x, b);
      }
      MergeParentsListed(k, genesis, nodes, tips, s, PastEq(g, sp), Past(g, b), x, p);
    }
    NodeFacts(k, genesis, nodes, tips, b);
    hide Topological, Consistent, Past, Derived, BlueCluster, RootedAt;
    AppendListed(nodes, g, s, of, m);
    CloseOrder(g, s + m, b);
  }

  lemma CloseOrder(g: Graph, t: seq<BlockId>, b: BlockId)
    requires WellFormed(g) && b in g && Topological(g, t) && Elements(t) == Past(g, b)
    ensures Topological(g, t + [b]) && Elements(t + [b]) == PastEq(g, b)
  {
    assert b !in Past(g, b);
    forall p | p in g[b] ensures p in Past(g, b) {
      ParentIsAnc(g, b, p);
    }
    hide Past, Topological;
    assert forall x :: x in t <==> x in Elements(t);
    AppendOne(g, t, b);
  }

  /** The linearization lists every block exactly once, parents first. */
  lemma LinearizationIsTopological(k: nat, genesis: BlockId, nodes: Nodes, tips: set<BlockId>, tip: BlockId)
    requires Consistent(k, genesis, nodes, tips) && Lineages(nodes) && tip in nodes
    ensures Topological(GraphOf(nodes), Linearization(nodes, tip))
    ensures Elements(Linearization(nodes, tip)) == nodes.Keys
    ensures OrderOf(nodes, tip) <= Linearization(nodes, tip)
  {
    var g, s := GraphOf(nodes), OrderOf(nodes, tip);
    var inner := PastEq(g, tip);
    var of := nodes.Keys - inner;
    OrderOfIsTopological(k, genesis, nodes, tips, tip);
    assert inner <= nodes.Keys;
    forall x, p ensures ParentListed(nodes, g, s, of, x, p) {
      MergeParentsListed(k, genesis, nodes, tips, s, inner, nodes.Keys, x, p);
    }
    hide Past, PastEq, Topological, Consistent, OrderOf;
    AppendListed(nodes, g, s, of, TopoOrder(nodes, of));
  }

  lemma {:induction false} SubsequenceGrows(s: seq<BlockId>, t: seq<BlockId>, m: seq<BlockId>)
    requires Subsequence(s, t)
    ensures Subsequence(s, t + m)
    decreases |m|
  {
    if m == [] {
      assert t + m == t;
    } else {
      var u := t + m;
      assert u[..|u| - 1] == t + m[..|m| - 1];
      SubsequenceGrows(s, t, m[..|m| - 1]);
      if s != [] && s[|s| - 1] == u[|u| - 1] {
        SubsequenceDrop(s, u[..|u| - 1]);
      }
    }
  }

  lemma {:induction false} SubsequenceDrop(s: seq<BlockId>, t: seq<BlockId>)
    requires Subsequence(s, t) && s != []
    ensures Subsequence(s[..|s| - 1], t)
    decreases |t|
  {
    var s' := s[..|s| - 1];
    if s[|s| - 1] == t[|t| - 1] {
      if s' != [] && s'[|s'| - 1] == t[|t| - 1] {
        SubsequenceDrop(s', t[..|t| - 1]);
      }
    } else {
      SubsequenceDrop(s, t[..|t| - 1]);
      if s' != [] && s'[|s'| - 1] == t[|t| - 1] {
        SubsequenceDrop(s', t[..|t| - 1]);
      }
    }
  }

  lemma SubsequenceSnoc(s: seq<BlockId>, t: seq<BlockId>, b: BlockId)
    requires Subsequence(s, t)
    ensures Subsequence(s + [b], t + [b])
  {
    assert (s + [b])[..|s|] == s && (t + [b])[..|t|] == t;
  }

  /** The selected chain keeps its order inside the linearization. */
  lemma {:induction false} ChainInOrder(nodes: Nodes, b: BlockId)
    requires Lineages(nodes) && b in nodes
    ensures Subsequence(ChainTo(nodes, b), OrderOf(nodes, b))
    decreases |Past(GraphOf(nodes), b)|
  {
    assert Lineage(nodes, b);
    match nodes[b].ghostdag.selectedParent
    case None =>
      assert [b][..0] == [];
    case Some(sp) =>
      ChainInOrder(nodes, sp);
      SubsequenceGrows(ChainTo(nodes, sp), OrderOf(nodes, sp), MergesetOf(nodes, b));
      SubsequenceSnoc(ChainTo(nodes, sp), OrderOf(nodes, sp) + MergesetOf(nodes, b), b);
  }

  lemma ChainInLinearization(nodes: Nodes, tip: BlockId)
    requires Lineages(nodes) && tip in nodes
    ensures Subsequence(ChainTo(nodes, tip), Linearization(nodes, tip))
  {
    ChainInOrder(nodes, tip);
    SubsequenceGrows(ChainTo(nodes, tip), OrderOf(nodes, tip),
                     TopoOrder(nodes, nodes.Keys - PastEq(GraphOf(nodes), tip)));
  }
}
