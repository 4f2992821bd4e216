/** What the consensus invariant says of every stored block, spelled out over parent edges, stored
    numbers and ids alone. */
module StoredData {
  import opened Types
  import opened Graphs
  import opened Ghostdag
  import opened Consensus
  import opened ChainSelection
  import opened Order

  // ------------------------------------------------------------------
  // Who is heaviest

  /** The heaviest of some blocks has the most blue work; among equals in that the highest blue
      score; among equals in both the largest id. */
  lemma HeaviestSpelledOut(nodes: Nodes, among: set<BlockId>, t: BlockId)
    requires IsHeaviest(nodes, among, t)
    ensures t in among && t in nodes
    ensures forall b :: b in among ==>
              && b in nodes
              && (|| nodes[b].ghostdag.blueWork < nodes[t].ghostdag.blueWork
                  || (&& nodes[b].ghostdag.blueWork == nodes[t].ghostdag.blueWork
                      && (|| nodes[b].ghostdag.blueScore < nodes[t].ghostdag.blueScore
                          || (nodes[b].ghostdag.blueScore == nodes[t].ghostdag.blueScore && b <= t))))
  {
    assert Heavier(nodes, t, t);
    forall b | b in among
      ensures b in nodes && (b == t || KeyLess(ChainKey(nodes, b), ChainKey(nodes, t)))
    {
      assert Heavier(nodes, t, b);
    }
  }

  /** The selected parent of a stored block is the heaviest of its parents in that sense. */
  lemma SelectedParentSpelledOut(k: nat, genesis: BlockId, nodes: Nodes, tips: set<BlockId>, b: BlockId)
    requires Consistent(k, genesis, nodes, tips) && b in nodes && b != genesis
    ensures nodes[b].ghostdag.selectedParent.Some?
    ensures var sp, ps := nodes[b].ghostdag.selectedParent.value, nodes[b].block.parents;
            && sp in ps && sp in nodes
            && forall p :: p in ps ==>
                 && p in nodes
                 && (|| nodes[p].ghostdag.blueWork < nodes[sp].ghostdag.blueWork
                     || (&& nodes[p].ghostdag.blueWork == nodes[sp].ghostdag.blueWork
                         && (|| nodes[p].ghostdag.blueScore < nodes[sp].ghostdag.blueScore
                             || (nodes[p].ghostdag.blueScore == nodes[sp].ghostdag.blueScore && p <= sp))))
  {
    BlueBase(k, genesis, nodes, tips, b);
    var sp, ps := nodes[b].ghostdag.selectedParent.value, nodes[b].block.parents;
    hide Consistent, IsHeaviest;
    HeaviestSpelledOut(nodes, Elements(ps), sp);
    assert forall p :: p in ps <==> p in Elements(ps);
  }

  // ------------------------------------------------------------------
  // Listings

  /** Ascending past size, then ascending id. */
  ghost predicate Ascends(nodes: Nodes, s: seq<BlockId>) {
    && (forall x :: x in s ==> x in nodes)
    && forall i, j :: 0 <= i < j < |s| ==>
         || nodes[s[i]].pastSize < nodes[s[j]].pastSize
         || (nodes[s[i]].pastSize == nodes[s[j]].pastSize && s[i] < s[j])
  }

  lemma ListSpelledOut(nodes: Nodes, of: set<BlockId>, s: seq<BlockId>)
    requires Lists(nodes, of, s)
    ensures Ascends(nodes, s) && forall x :: x in s <==> x in of
  {
    assert forall x :: x in s <==> x in Elements(s);
  }

  lemma MergesetIs(nodes: Nodes, b: BlockId, sp: BlockId)
    requires b in nodes && nodes[b].ghostdag.selectedParent == Some(sp)
    ensures Lists(nodes, PastOf(GraphOf(nodes), nodes[b].block.parents) - PastEq(GraphOf(nodes), sp),
                  MergesetOf(nodes, b))
  {
    hide Lists, PastOf, PastEq, GraphOf;
  }

  lemma OffGenesis(k: nat, genesis: BlockId, nodes: Nodes, tips: set<BlockId>, b: BlockId)
    requires Consistent(k, genesis, nodes, tips) && b in nodes && b != genesis
    ensures nodes[b].ghostdag.selectedParent.Some? && nodes[b].ghostdag.selectedParent.value in nodes
    ensures GraphOf(nodes)[b] == nodes[b].block.parents && WellFormed(GraphOf(nodes))
    ensures nodes[b].ghostdag.selectedParent.value in nodes[b].block.parents
    ensures BlueCluster(nodes, k, nodes[b].ghostdag.selectedParent.value)
    ensures nodes[b].ghostdag == Derive(nodes, k, nodes[b].block.parents, nodes[b].ghostdag.selectedParent.value)
  {
    BlueBase(k, genesis, nodes, tips, b);
    NodeFacts(k, genesis, nodes, tips, b);
    NodeFacts(k, genesis, nodes, tips, nodes[b].ghostdag.selectedParent.value);
    hide Consistent, Derive, BlueCluster, IsHeaviest;
  }

  lemma PastMembers(g: Graph, b: BlockId)
    requires Closed(g) && b in g
    ensures forall x :: x in PastOf(g, g[b]) <==> x in g && Anc(g, x, b)
  {
    PastUnfold(g, b);
    hide Anc, PastOf;
  }

  /** A mergeset lists what the parents bring besides the selected parent and its past, ascending. */
  lemma MergesetSpelledOut(k: nat, genesis: BlockId, nodes: Nodes, tips: set<BlockId>, b: BlockId)
    requires Consistent(k, genesis, nodes, tips) && b in nodes && b != genesis
    ensures nodes[b].ghostdag.selectedParent.Some?
    ensures var sp, m, g := nodes[b].ghostdag.selectedParent.value, MergesetOf(nodes, b), GraphOf(nodes);
            && Ascends(nodes, m)
            && forall x :: x in m <==> x in nodes && Anc(g, x, b) && x != sp && !Anc(g, x, sp)
  {
    hide *;
    OffGenesis(k, genesis, nodes, tips, b);
    var sp, ps, g := nodes[b].ghostdag.selectedParent.value, nodes[b].block.parents, GraphOf(nodes);
    WellFormedGraph(nodes);
    PastMembers(g, b);
    PastEqMembers(g, sp);
    MergesetIs(nodes, b, sp);
    ListSpelledOut(nodes, PastOf(g, ps) - PastEq(g, sp), MergesetOf(nodes, b));
  }

  lemma WellFormedGraph(nodes: Nodes)
    ensures GraphOf(nodes).Keys == nodes.Keys
    ensures WellFormed(GraphOf(nodes)) ==> Closed(GraphOf(nodes)) && Acyclic(GraphOf(nodes))
  {
  }

  lemma PastEqMembers(g: Graph, b: BlockId)
    ensures forall x :: x in PastEq(g, b) <==> x == b || (x in g && Anc(g, x, b))
  {
    hide Anc;
  }

  /** Behind the order of the selected tip the linearization lists the blocks outside its past,
      ascending. */
  lemma TailSpelledOut(nodes: Nodes, tip: BlockId) returns (tail: seq<BlockId>)
    requires tip in nodes && Lineages(nodes)
    ensures Linearization(nodes, tip) == OrderOf(nodes, tip) + tail
    ensures Ascends(nodes, tail)
    ensures forall x :: x in tail <==> x in nodes && x != tip && !Anc(GraphOf(nodes), x, tip)
  {
    var of := nodes.Keys - PastEq(GraphOf(nodes), tip);
    tail := TopoOrder(nodes, of);
    hide OrderOf, Anc, Ascends;
    ListSpelledOut(nodes, of, tail);
  }

  // ------------------------------------------------------------------
  // Colours

  /** No member has more than `k` members that are neither above nor below it. */
  ghost predicate AtMostApart(g: Graph, k: nat, s: set<BlockId>) {
    forall x :: x in s ==> |set y | y in s && Apart(g, x, y)| <= k
  }

  ghost predicate Apart(g: Graph, x: BlockId, y: BlockId) {
    x != y && !Anc(g, x, y) && !Anc(g, y, x)
  }

  /** The members of `m` before the `i`-th that are blue. */
  ghost function BluesBefore(m: seq<BlockId>, blues: seq<BlockId>, i: nat): set<BlockId>
    requires i <= |m|
  {
    set j | 0 <= j < i && m[j] in blues :: m[j]
  }

  /** A candidate fits exactly if the set stays within the bound with it. */
  lemma FitsSpelledOut(g: Graph, k: nat, blues: set<BlockId>, c: BlockId)
    requires IsCluster(g, k, blues) && c !in blues && blues + {c} <= g.Keys
    ensures FitsCluster(g, k, blues, c) <==> AtMostApart(g, k, blues + {c})
  {
    forall x | x in blues + {c}
      ensures |set y | y in blues + {c} && Apart(g, x, y)| ==
              |Anti(g, x, blues)| + if x != c && Parallel(g, x, c) then 1 else 0
    {
      assert (set y | y in blues + {c} && Apart(g, x, y)) == Anti(g, x, blues + {c});
      AntiGrows(g, blues, c, x);
    }
    hide Anc, Past;
    if FitsCluster(g, k, blues, c) {
      forall x | x in blues + {c} ensures |set y | y in blues + {c} && Apart(g, x, y)| <= k {
        if x != c && Parallel(g, x, c) {
          assert x in Anti(g, c, blues);
        }
      }
    }
    if AtMostApart(g, k, blues + {c}) {
      forall y | y in Anti(g, c, blues) ensures |Anti(g, y, blues)| < k {
        ParallelSymmetric(g, y, c);
      }
    }
  }

  /** Each candidate gets the verdict that the set coloured before it calls for. */
  lemma {:induction false} VerdictAt(g: Graph, k: nat, base: set<BlockId>, cands: seq<BlockId>, i: nat)
    requires i < |cands| && Distinct(cands)
    ensures var c, (bs, rs) := cands[i], Verdicts(g, k, base, cands);
            && (c in bs <==> FitsCluster(g, k, Coloured(g, k, base, cands[..i]), c))
            && (c in rs <==> c !in bs)
  {
    hide FitsCluster, Coloured;
    var init, last := cands[..|cands| - 1], cands[|cands| - 1];
    InitDistinct(cands);
    VerdictMembers(g, k, base, init);
    if i < |init| {
      VerdictAt(g, k, base, init, i);
      assert init[..i] == cands[..i];
    } else {
      assert cands[..i] == init;
    }
  }

  lemma {:induction false} VerdictMembers(g: Graph, k: nat, base: set<BlockId>, cands: seq<BlockId>)
    ensures forall x :: x in Verdicts(g, k, base, cands).0 || x in Verdicts(g, k, base, cands).1 <==> x in cands
  {
    hide FitsCluster, Coloured;
    if cands != [] {
      VerdictMembers(g, k, base, cands[..|cands| - 1]);
      assert cands == cands[..|cands| - 1] + [cands[|cands| - 1]];
    }
  }

  /** The set coloured before the `i`-th candidate. */
  lemma {:induction false} ColouredBefore(g: Graph, k: nat, base: set<BlockId>, cands: seq<BlockId>, i: nat)
    requires i <= |cands| && Distinct(cands)
    ensures Coloured(g, k, base, cands[..i]) == base + BluesBefore(cands, Verdicts(g, k, base, cands).0, i)
    decreases i
  {
    hide FitsCluster, Verdicts;
    var bs := Verdicts(g, k, base, cands).0;
    if i > 0 {
      ColouredBefore(g, k, base, cands, i - 1);
      VerdictAt(g, k, base, cands, i - 1);
      assert cands[..i][..i - 1] == cands[..i - 1];
      assert BluesBefore(cands, bs, i) ==
             BluesBefore(cands, bs, i - 1) + if cands[i - 1] in bs then {cands[i - 1]} else {};
    }
  }

  lemma {:induction false} VerdictsAscend(nodes: Nodes, g: Graph, k: nat, base: set<BlockId>, cands: seq<BlockId>)
    requires Ascends(nodes, cands)
    ensures var (bs, rs) := Verdicts(g, k, base, cands);
            Ascends(nodes, bs) && Ascends(nodes, rs)
  {
    hide FitsCluster, Coloured, Ascends;
    if cands == [] {
      NothingAscends(nodes);
    } else {
      var init := cands[..|cands| - 1];
      assert cands == init + [cands[|cands| - 1]];
      AscendsInit(nodes, init, cands[|cands| - 1]);
      VerdictsAscend(nodes, g, k, base, init);
      VerdictMembers(g, k, base, init);
      var (bs, rs) := Verdicts(g, k, base, init);
      AscendsSnoc(nodes, init, cands[|cands| - 1], bs);
      AscendsSnoc(nodes, init, cands[|cands| - 1], rs);
    }
  }

  lemma NothingAscends(nodes: Nodes)
    ensures Ascends(nodes, [])
  {
  }

  lemma AscendsInit(nodes: Nodes, init: seq<BlockId>, last: BlockId)
    requires Ascends(nodes, init + [last])
    ensures Ascends(nodes, init)
  {
    forall i | 0 <= i < |init| ensures (init + [last])[i] == init[i] && init[i] in init + [last] {
    }
    forall i, j | 0 <= i < j < |init|
      ensures || nodes[init[i]].pastSize < nodes[init[j]].pastSize
              || (nodes[init[i]].pastSize == nodes[init[j]].pastSize && init[i] < init[j])
    {
      assert (init + [last])[i] == init[i] && (init + [last])[j] == init[j];
    }
  }

  lemma AscendsSnoc(nodes: Nodes, init: seq<BlockId>, last: BlockId, s: seq<BlockId>)
    requires Ascends(nodes, init + [last]) && Ascends(nodes, s) && forall x :: x in s ==> x in init
    ensures Ascends(nodes, s + [last])
  {
    assert (init + [last])[|init|] == last;
    forall x | x in s
      ensures || nodes[x].pastSize < nodes[last].pastSize
              || (nodes[x].pastSize == nodes[last].pastSize && x < last)
    {
      var j :| 0 <= j < |init| && init[j] == x;
      assert (init + [last])[j] == x;
    }
  }

  /** What the colouring of a stored block starts from. */
  lemma ColouringSetting(k: nat, genesis: BlockId, nodes: Nodes, tips: set<BlockId>, b: BlockId)
    requires Consistent(k, genesis, nodes, tips) && b in nodes && b != genesis
    ensures nodes[b].ghostdag.selectedParent.Some? && nodes[b].ghostdag.selectedParent.value in nodes
    ensures var gd, sp, m, g := nodes[b].ghostdag, nodes[b].ghostdag.selectedParent.value, MergesetOf(nodes, b),
                                GraphOf(nodes);
            var base := Blues(nodes, sp) + {sp};
            && Distinct(m) && (forall c :: c in m ==> c !in base && c in g) && base <= g.Keys
            && IsCluster(g, k, base) && (gd.mergesetBlues, gd.mergesetReds) == Verdicts(g, k, base, m)
  {
    OffGenesis(k, genesis, nodes, tips, b);
    MergesetSpelledOut(k, genesis, nodes, tips, b);
    var sp, m, g := nodes[b].ghostdag.selectedParent.value, MergesetOf(nodes, b), GraphOf(nodes);
    hide Consistent, Anc, IsCluster, Verdicts, MergeOrder, AnticoneSizes, Coloured;
    assert sp !in Blues(nodes, sp);
    TopAddsNothing(g, k, Blues(nodes, sp), sp);
    AscendsDistinct(nodes, m);
  }

  lemma AscendsDistinct(nodes: Nodes, s: seq<BlockId>)
    requires Ascends(nodes, s)
    ensures Distinct(s)
  {
  }

  /** Nothing of what is coloured before a candidate stands in the way of judging it. */
  lemma BeforeCandidate(g: Graph, k: nat, base: set<BlockId>, m: seq<BlockId>, i: nat)
    requires i < |m| && Distinct(m) && (forall c :: c in m ==> c !in base && c in g)
    requires base <= g.Keys && IsCluster(g, k, base)
    ensures var before := base + BluesBefore(m, Verdicts(g, k, base, m).0, i);
            && Coloured(g, k, base, m[..i]) == before && IsCluster(g, k, before)
            && m[i] !in before && before + {m[i]} <= g.Keys
  {
    hide Coloured, Verdicts, IsCluster;
    ColouredBefore(g, k, base, m, i);
    assert forall c :: c in m[..i] ==> c in m;
    ColouringIsCluster(g, k, base, m[..i]);
  }

  /** The colouring of a stored block. It starts from its selected parent and what that parent has
      blue. A block of the mergeset is blue exactly if with it, after those before it, no blue has
      more than `k` blues beside it, and red otherwise; both lists ascend. */
  lemma ColoursSpelledOut(k: nat, genesis: BlockId, nodes: Nodes, tips: set<BlockId>, b: BlockId, i: nat)
    requires Consistent(k, genesis, nodes, tips) && b in nodes && b != genesis && i < |MergesetOf(nodes, b)|
    ensures nodes[b].ghostdag.selectedParent.Some? && nodes[b].ghostdag.selectedParent.value in nodes
    ensures var gd, m, sp := nodes[b].ghostdag, MergesetOf(nodes, b), nodes[b].ghostdag.selectedParent.value;
            var before := nodes[sp].ghostdag.blueAnticoneSizes.Keys + {sp} + BluesBefore(m, gd.mergesetBlues, i);
            && (m[i] in gd.mergesetBlues <==> AtMostApart(GraphOf(nodes), k, before + {m[i]}))
            && (m[i] in gd.mergesetReds <==> m[i] !in gd.mergesetBlues)
            && Ascends(nodes, gd.mergesetBlues) && Ascends(nodes, gd.mergesetReds)
  {
    hide *;
    ColouringSetting(k, genesis, nodes, tips, b);
    MergesetSpelledOut(k, genesis, nodes, tips, b);
    var sp, m, g := nodes[b].ghostdag.selectedParent.value, MergesetOf(nodes, b), GraphOf(nodes);
    var base := Blues(nodes, sp) + {sp};
    BluesAre(nodes, sp);
    VerdictAt(g, k, base, m, i);
    BeforeCandidate(g, k, base, m, i);
    VerdictsAscend(nodes, g, k, base, m);
    FitsSpelledOut(g, k, Coloured(g, k, base, m[..i]), m[i]);
  }

  lemma BluesAre(nodes: Nodes, b: BlockId)
    requires b in nodes
    ensures Blues(nodes, b) == nodes[b].ghostdag.blueAnticoneSizes.Keys
  {
  }
}
