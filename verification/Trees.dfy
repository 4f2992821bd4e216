/** The selected-parent tree and its interval labelling, as values. */
module Trees {
  import opened Types

  /** A closed interval of labels. */
  datatype Span = Span(lo: nat, hi: nat)

  type Parents = map<BlockId, BlockId>
  type Intervals = map<BlockId, Span>
  type Marks = map<BlockId, int>

  /** For every block, the blocks from the root down to it along tree edges. */
  type Chains = map<BlockId, seq<BlockId>>

  ghost predicate Linked(tp: Parents, chain: Chains, y: BlockId) {
    && y in tp && y in chain && tp[y] in chain
    && chain[y] == chain[tp[y]] + [y]
  }

  ghost predicate IsTree(tp: Parents, root: BlockId, chain: Chains) {
    && chain.Keys == tp.Keys + {root}
    && root !in tp && chain[root] == [root]
    && forall y {:trigger Linked(tp, chain, y)} :: y in tp ==> Linked(tp, chain, y)
  }

  /** Reflexive tree ancestry: `x` lies on the chain down to `y`. */
  ghost predicate TreeReach(chain: Chains, x: BlockId, y: BlockId) {
    y in chain && x in chain[y]
  }

  ghost function Subtree(chain: Chains, x: BlockId): set<BlockId> {
    set y | y in chain && TreeReach(chain, x, y)
  }

  ghost predicate IsChild(tp: Parents, x: BlockId, c: BlockId) {
    c in tp && tp[c] == x
  }

  predicate Contains(iv: Intervals, x: BlockId, y: BlockId) {
    x in iv && y in iv && iv[x].lo <= iv[y].lo <= iv[x].hi
  }

  predicate Disjoint(a: Span, b: Span) {
    a.hi < b.lo || b.hi < a.lo
  }

  /** Child `c` lies strictly above its parent's start and below its free mark. */
  ghost predicate ChildLaid(tp: Parents, iv: Intervals, nf: Marks, c: BlockId) {
    && c in tp && c in iv && tp[c] in iv && tp[c] in nf
    && iv[tp[c]].lo < iv[c].lo <= iv[c].hi < nf[tp[c]]
  }

  ghost predicate SiblingsLaid(tp: Parents, iv: Intervals, c: BlockId, d: BlockId) {
    c in iv && d in iv && c in tp && d in tp && (tp[c] == tp[d] && c != d ==> Disjoint(iv[c], iv[d]))
  }

  ghost predicate MarkLaid(iv: Intervals, nf: Marks, x: BlockId) {
    x in iv && x in nf && iv[x].lo < nf[x] <= iv[x].hi + 1
  }

  /** The interval invariant: every free mark is inside its block's interval, and
      children lie side by side between their parent's start and free mark. */
  ghost predicate Laid(tp: Parents, chain: Chains, iv: Intervals, nf: Marks) {
    && iv.Keys == chain.Keys && nf.Keys == chain.Keys
    && (forall x {:trigger MarkLaid(iv, nf, x)} :: x in chain ==> MarkLaid(iv, nf, x))
    && (forall c {:trigger ChildLaid(tp, iv, nf, c)} :: c in tp ==> ChildLaid(tp, iv, nf, c))
    && (forall c, d {:trigger SiblingsLaid(tp, iv, c, d)} :: c in tp && d in tp ==> SiblingsLaid(tp, iv, c, d))
  }

  lemma {:induction false} RootAboveAll(tp: Parents, root: BlockId, chain: Chains, y: BlockId)
    requires IsTree(tp, root, chain) && y in chain
    ensures |chain[y]| > 0 && chain[y][0] == root && chain[y][|chain[y]| - 1] == y
    decreases |chain[y]|
  {
    if y != root {
      assert Linked(tp, chain, y);
      RootAboveAll(tp, root, chain, tp[y]);
    }
  }

  /** A strict tree ancestor is also an ancestor of the tree parent, or is it. */
  lemma StepUp(tp: Parents, root: BlockId, chain: Chains, x: BlockId, y: BlockId)
    requires IsTree(tp, root, chain) && TreeReach(chain, x, y) && x != y
    ensures y in tp && tp[y] in chain && TreeReach(chain, x, tp[y])
    ensures chain[y] == chain[tp[y]] + [y]
  {
    assert y in tp ==> Linked(tp, chain, y);
  }

  /** A block's chain extends the chain of each of its tree ancestors. */
  lemma {:induction false} ChainPrefix(tp: Parents, root: BlockId, chain: Chains, x: BlockId, y: BlockId)
    requires IsTree(tp, root, chain) && TreeReach(chain, x, y)
    ensures x in chain && chain[x] <= chain[y] && (x != y ==> |chain[x]| < |chain[y]|)
    decreases |chain[y]|
  {
    if x != y {
      StepUp(tp, root, chain, x, y);
      ChainPrefix(tp, root, chain, x, tp[y]);
    }
  }

  lemma ReachTransitive(tp: Parents, root: BlockId, chain: Chains, x: BlockId, y: BlockId, z: BlockId)
    requires IsTree(tp, root, chain) && TreeReach(chain, x, y) && TreeReach(chain, y, z)
    ensures TreeReach(chain, x, z)
  {
    ChainPrefix(tp, root, chain, y, z);
  }

  /** Below a strict tree ancestor there is a child leading down to `y`. */
  lemma {:induction false} ChildTowards(tp: Parents, root: BlockId, chain: Chains, x: BlockId, y: BlockId)
    returns (c: BlockId)
    requires IsTree(tp, root, chain) && TreeReach(chain, x, y) && x != y
    ensures IsChild(tp, x, c) && TreeReach(chain, c, y)
    decreases |chain[y]|
  {
    StepUp(tp, root, chain, x, y);
    if tp[y] == x {
      RootAboveAll(tp, root, chain, y);
      c := y;
    } else {
      c := ChildTowards(tp, root, chain, x, tp[y]);
    }
  }

  /** Intervals nest along tree ancestry. */
  lemma {:induction false} IntervalsNest(tp: Parents, root: BlockId, chain: Chains, iv: Intervals, nf: Marks,
                                         x: BlockId, y: BlockId)
    requires IsTree(tp, root, chain) && Laid(tp, chain, iv, nf) && TreeReach(chain, x, y)
    ensures x in chain && iv[x].lo <= iv[y].lo <= iv[y].hi <= iv[x].hi
    ensures x != y ==> iv[x].lo < iv[y].lo
    decreases |chain[y]|
  {
    assert MarkLaid(iv, nf, y);
    if x != y {
      StepUp(tp, root, chain, x, y);
      assert ChildLaid(tp, iv, nf, y) && MarkLaid(iv, nf, tp[y]);
      IntervalsNest(tp, root, chain, iv, nf, x, tp[y]);
    }
  }

  /** Containment of starts implies tree ancestry. */
  lemma {:induction false} ContainsMeansReach(tp: Parents, root: BlockId, chain: Chains, iv: Intervals, nf: Marks,
                                              x: BlockId, y: BlockId)
    requires IsTree(tp, root, chain) && Laid(tp, chain, iv, nf) && x in chain && y in chain
    requires Contains(iv, x, y)
    ensures TreeReach(chain, x, y)
    decreases |chain[x]|
  {
    if x == root {
      RootAboveAll(tp, root, chain, y);
    } else {
      var q := tp[x];
      assert Linked(tp, chain, x) && ChildLaid(tp, iv, nf, x) && MarkLaid(iv, nf, q);
      ContainsMeansReach(tp, root, chain, iv, nf, q, y);
      var c := ChildTowards(tp, root, chain, q, y);
      IntervalsNest(tp, root, chain, iv, nf, c, y);
      assert SiblingsLaid(tp, iv, c, x);
    }
  }

  /** Interval containment is exactly reflexive tree ancestry. */
  lemma ContainsIffReach(tp: Parents, root: BlockId, chain: Chains, iv: Intervals, nf: Marks, x: BlockId, y: BlockId)
    requires IsTree(tp, root, chain) && Laid(tp, chain, iv, nf)
    ensures Contains(iv, x, y) <==> TreeReach(chain, x, y)
  {
    if TreeReach(chain, x, y) {
      IntervalsNest(tp, root, chain, iv, nf, x, y);
    } else if Contains(iv, x, y) {
      ContainsMeansReach(tp, root, chain, iv, nf, x, y);
    }
  }

  // ------------------------------------------------------------------
  // Children lists and subtree sizes

  ghost predicate ChildrenListed(tp: Parents, ch: map<BlockId, seq<BlockId>>, x: BlockId) {
    x in ch && Ascending(ch[x]) && forall c :: c in ch[x] <==> IsChild(tp, x, c)
  }

  ghost predicate Sized(chain: Chains, sz: map<BlockId, int>, x: BlockId) {
    x in sz && sz[x] == |Subtree(chain, x)|
  }

  /** The tree bookkeeping: children are listed in id order and sizes count subtrees. */
  ghost predicate Booked(tp: Parents, root: BlockId, chain: Chains, ch: map<BlockId, seq<BlockId>>,
                         sz: map<BlockId, int>) {
    && IsTree(tp, root, chain)
    && ch.Keys == chain.Keys && sz.Keys == chain.Keys
    && (forall x {:trigger ChildrenListed(tp, ch, x)} :: x in chain ==> ChildrenListed(tp, ch, x))
    && (forall x {:trigger Sized(chain, sz, x)} :: x in chain ==> Sized(chain, sz, x))
  }

  function SumSizes(s: seq<BlockId>, sz: map<BlockId, int>): int {
    if s == [] then 0
    else SumSizes(s[..|s| - 1], sz) + (if s[|s| - 1] in sz then sz[s[|s| - 1]] else 0)
  }

  /** All blocks at or below one of the listed ones. */
  ghost function Below(chain: Chains, s: seq<BlockId>): set<BlockId> {
    set y | y in chain && exists i :: 0 <= i < |s| && TreeReach(chain, s[i], y)
  }

  /** Different children of one block have disjoint subtrees. */
  lemma SiblingSubtrees(tp: Parents, root: BlockId, chain: Chains, x: BlockId, c: BlockId, d: BlockId, y: BlockId)
    requires IsTree(tp, root, chain) && IsChild(tp, x, c) && IsChild(tp, x, d)
    requires TreeReach(chain, c, y) && TreeReach(chain, d, y)
    ensures c == d
  {
    ChainPrefix(tp, root, chain, c, y);
    ChainPrefix(tp, root, chain, d, y);
    assert Linked(tp, chain, c) && Linked(tp, chain, d);
    assert chain[c][|chain[x]|] == c && chain[d][|chain[x]|] == d;
  }

  lemma {:induction false} SizesBelow(tp: Parents, root: BlockId, chain: Chains, sz: map<BlockId, int>, x: BlockId,
                                      s: seq<BlockId>)
    requires IsTree(tp, root, chain) && Ascending(s)
    requires forall i {:trigger s[i]} :: 0 <= i < |s| ==> IsChild(tp, x, s[i]) && Sized(chain, sz, s[i])
    ensures SumSizes(s, sz) == |Below(chain, s)|
  {
    if s == [] {
      assert Below(chain, s) == {};
    } else {
      var init, c := s[..|s| - 1], s[|s| - 1];
      SizesBelow(tp, root, chain, sz, x, init);
      assert Sized(chain, sz, c);
      forall y | y in Below(chain, s) ensures y in Below(chain, init) || y in Subtree(chain, c) {
        var i :| 0 <= i < |s| && TreeReach(chain, s[i], y);
        assert i < |init| ==> init[i] == s[i];
      }
      forall y | y in Below(chain, init) ensures y in Below(chain, s) && y !in Subtree(chain, c) {
        var i :| 0 <= i < |init| && TreeReach(chain, init[i], y);
        assert TreeReach(chain, s[i], y);
        if TreeReach(chain, c, y) {
          SiblingSubtrees(tp, root, chain, x, s[i], c, y);
        }
      }
      forall y | y in Subtree(chain, c) ensures y in Below(chain, s) {
        assert TreeReach(chain, s[|s| - 1], y);
      }
      assert Below(chain, s) == Below(chain, init) + Subtree(chain, c);
    }
  }

  /** A subtree is its root together with the subtrees of its children. */
  lemma SubtreeSplits(tp: Parents, root: BlockId, chain: Chains, ch: map<BlockId, seq<BlockId>>, x: BlockId)
    requires IsTree(tp, root, chain) && x in chain && ChildrenListed(tp, ch, x)
    ensures Subtree(chain, x) == Below(chain, ch[x]) + {x}
    ensures x !in Below(chain, ch[x])
  {
    RootAboveAll(tp, root, chain, x);
    forall y | y in Subtree(chain, x) ensures y == x || y in Below(chain, ch[x]) {
      if y != x {
        var c := ChildTowards(tp, root, chain, x, y);
        var i :| 0 <= i < |ch[x]| && ch[x][i] == c;
        assert TreeReach(chain, ch[x][i], y);
      }
    }
    forall y | y in Below(chain, ch[x]) ensures y in Subtree(chain, x) && y != x {
      var i :| 0 <= i < |ch[x]| && TreeReach(chain, ch[x][i], y);
      BelowChild(tp, root, chain, x, ch[x][i], y);
    }
  }

  lemma BelowChild(tp: Parents, root: BlockId, chain: Chains, x: BlockId, c: BlockId, y: BlockId)
    requires IsTree(tp, root, chain) && IsChild(tp, x, c) && TreeReach(chain, c, y)
    ensures TreeReach(chain, x, y) && x != y && TreeReach(chain, x, c)
  {
    assert Linked(tp, chain, c);
    RootAboveAll(tp, root, chain, x);
    assert x in chain[c];
    ReachTransitive(tp, root, chain, x, c, y);
    ChainPrefix(tp, root, chain, c, y);
  }

  /** The children's sizes leave exactly one place for the block itself. */
  lemma SizeSplits(tp: Parents, root: BlockId, chain: Chains, ch: map<BlockId, seq<BlockId>>, sz: map<BlockId, int>,
                   x: BlockId)
    requires Booked(tp, root, chain, ch, sz) && x in chain
    ensures sz[x] == 1 + SumSizes(ch[x], sz)
  {
    assert ChildrenListed(tp, ch, x) && Sized(chain, sz, x);
    forall i {:trigger ch[x][i]} | 0 <= i < |ch[x]| ensures IsChild(tp, x, ch[x][i]) && Sized(chain, sz, ch[x][i]) {
      assert ch[x][i] in ch[x];
    }
    SizesBelow(tp, root, chain, sz, x, ch[x]);
    SubtreeSplits(tp, root, chain, ch, x);
  }

  // ------------------------------------------------------------------
  // Appending a leaf

  lemma InsertSorted(s: seq<BlockId>, id: BlockId, pos: nat)
    requires Ascending(s) && id !in s && pos <= |s|
    requires forall i :: 0 <= i < pos ==> s[i] < id
    requires forall i :: pos <= i < |s| ==> id <= s[i]
    ensures Ascending(s[..pos] + [id] + s[pos..])
    ensures forall c :: c in s[..pos] + [id] + s[pos..] <==> c in s || c == id
  {
    var t := s[..pos] + [id] + s[pos..];
    forall i, j | 0 <= i < j < |t| ensures t[i] < t[j] {
      assert pos < |s| ==> s[pos] in s;
    }
    forall c | c in s ensures c in t {
      var i :| 0 <= i < |s| && s[i] == c;
      assert if i < pos then t[i] == c else t[i + 1] == c;
    }
  }

  ghost predicate Bumped(chain: Chains, sz: map<BlockId, int>, sz': map<BlockId, int>, sp: BlockId, x: BlockId) {
    x in sz && x in sz' && sp in chain && sz'[x] == sz[x] + if x in chain[sp] then 1 else 0
  }

  /** A leaf grows exactly the subtrees of the blocks on its chain, each by one. */
  lemma LeafSubtree(tp: Parents, root: BlockId, chain: Chains, id: BlockId, sp: BlockId, x: BlockId)
    requires IsTree(tp, root, chain) && id !in chain && sp in chain && x in chain
    ensures var chain' := chain[id := chain[sp] + [id]];
            |Subtree(chain', x)| == |Subtree(chain, x)| + if x in chain[sp] then 1 else 0
  {
    var chain' := chain[id := chain[sp] + [id]];
    hide IsTree;
    forall y ensures y in Subtree(chain', x) <==> y in Subtree(chain, x) || (y == id && x in chain[sp]) {
    }
    if x in chain[sp] {
      assert Subtree(chain', x) == Subtree(chain, x) + {id};
    } else {
      assert Subtree(chain', x) == Subtree(chain, x);
    }
  }

  lemma LeafAlone(tp: Parents, root: BlockId, chain: Chains, id: BlockId, sp: BlockId)
    requires IsTree(tp, root, chain) && id !in chain && sp in chain
    ensures Subtree(chain[id := chain[sp] + [id]], id) == {id}
  {
    var chain' := chain[id := chain[sp] + [id]];
    forall y | y in chain' && TreeReach(chain', id, y) ensures y == id {
      if y != id {
        ChainPrefix(tp, root, chain, id, y);
      }
    }
    assert TreeReach(chain', id, id);
  }

  lemma LeafTree(tp: Parents, root: BlockId, chain: Chains, id: BlockId, sp: BlockId)
    requires IsTree(tp, root, chain) && id !in chain && sp in chain
    ensures IsTree(tp[id := sp], root, chain[id := chain[sp] + [id]])
  {
    var tp', chain' := tp[id := sp], chain[id := chain[sp] + [id]];
    forall y | y in tp' ensures Linked(tp', chain', y) {
      assert y != id ==> Linked(tp, chain, y);
    }
  }

  lemma LeafListed(tp: Parents, root: BlockId, chain: Chains, ch: map<BlockId, seq<BlockId>>, id: BlockId, sp: BlockId,
                   siblings: seq<BlockId>, x: BlockId)
    requires IsTree(tp, root, chain) && id !in chain && sp in chain
    requires Ascending(siblings) && forall c :: c in siblings <==> IsChild(tp, sp, c) || c == id
    requires x != id ==> ChildrenListed(tp, ch, x)
    ensures ChildrenListed(tp[id := sp], ch[sp := siblings][id := []], x)
  {
    var tp' := tp[id := sp];
    if x == id {
      forall c ensures !IsChild(tp', id, c) {
        assert c in tp ==> Linked(tp, chain, c);
      }
    }
  }

  lemma LeafSized(tp: Parents, root: BlockId, chain: Chains, sz: map<BlockId, int>, sz': map<BlockId, int>, id: BlockId,
                  sp: BlockId, x: BlockId)
    requires IsTree(tp, root, chain) && id !in chain && sp in chain
    requires if x == id then x in sz' && sz'[x] == 1
             else x in chain && Sized(chain, sz, x) && Bumped(chain, sz, sz', sp, x)
    ensures Sized(chain[id := chain[sp] + [id]], sz', x)
  {
    if x == id {
      LeafAlone(tp, root, chain, id, sp);
    } else {
      LeafSubtree(tp, root, chain, id, sp, x);
    }
  }

  /** Registering a leaf keeps the tree bookkeeping. */
  lemma BookedLeaf(tp: Parents, root: BlockId, chain: Chains, ch: map<BlockId, seq<BlockId>>, sz: map<BlockId, int>,
                   id: BlockId, sp: BlockId, siblings: seq<BlockId>, sz': map<BlockId, int>)
    requires Booked(tp, root, chain, ch, sz) && id !in chain && sp in chain
    requires Ascending(siblings) && forall c :: c in siblings <==> c in ch[sp] || c == id
    requires sz'.Keys == chain.Keys + {id} && sz'[id] == 1
    requires forall x {:trigger Bumped(chain, sz, sz', sp, x)} :: x in chain ==> Bumped(chain, sz, sz', sp, x)
    ensures Booked(tp[id := sp], root, chain[id := chain[sp] + [id]], ch[sp := siblings][id := []], sz')
  {
    var tp', chain', ch' := tp[id := sp], chain[id := chain[sp] + [id]], ch[sp := siblings][id := []];
    LeafTree(tp, root, chain, id, sp);
    assert ChildrenListed(tp, ch, sp);
    hide IsTree, ChildrenListed, Ascending, Sized, Bumped;
    assert chain'.Keys == chain.Keys + {id} && ch'.Keys == ch.Keys + {id};
    forall x | x in chain' ensures ChildrenListed(tp', ch', x) && Sized(chain', sz', x) {
      if x != id {
        assert ChildrenListed(tp, ch, x) && Sized(chain, sz, x) && Bumped(chain, sz, sz', sp, x);
      }
      LeafListed(tp, root, chain, ch, id, sp, siblings, x);
      LeafSized(tp, root, chain, sz, sz', id, sp, x);
    }
  }
}
