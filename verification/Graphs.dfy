/** Reference semantics of ancestry: the transitive closure of the parent relation
    of a block graph, stated without any of the data the oracle keeps. */
module Graphs {
  import opened Types

  /** Every block with the list of its parents. */
  type Graph = map<BlockId, seq<BlockId>>

  ghost function Elements(s: seq<BlockId>): set<BlockId> {
    set x | x in s
  }

  ghost predicate Distinct(s: seq<BlockId>) {
    forall i, j :: 0 <= i < j < |s| ==> s[i] != s[j]
  }

  ghost predicate Closed(g: Graph) {
    forall b, p :: b in g && p in g[b] ==> p in g
  }

  /** `a` is reached from `b` by following exactly `n` parent edges. */
  ghost predicate Steps(g: Graph, a: BlockId, b: BlockId, n: nat)
    decreases n
  {
    if n == 0 then a == b
    else b in g && exists q :: q in g[b] && Steps(g, a, q, n - 1)
  }

  /** `a` is a strict ancestor of `b`. */
  ghost predicate Anc(g: Graph, a: BlockId, b: BlockId) {
    exists n :: n > 0 && Steps(g, a, b, n)
  }

  ghost predicate Acyclic(g: Graph) {
    forall b :: b in g ==> !Anc(g, b, b)
  }

  ghost predicate WellFormed(g: Graph) {
    Closed(g) && Acyclic(g)
  }

  ghost function Past(g: Graph, b: BlockId): set<BlockId> {
    set a | a in g && Anc(g, a, b)
  }

  /** `past ∪ {b}` */
  ghost function PastEq(g: Graph, b: BlockId): set<BlockId> {
    Past(g, b) + {b}
  }

  /** The past a new block with parents `ps` would have. */
  ghost function PastOf(g: Graph, ps: seq<BlockId>): set<BlockId> {
    set a | a in g && exists q :: q in ps && a in PastEq(g, q)
  }

  lemma StepsStayInside(g: Graph, a: BlockId, b: BlockId, n: nat)
    requires Closed(g) && b in g && Steps(g, a, b, n)
    ensures a in g
    decreases n
  {
    if n > 0 {
      var q :| q in g[b] && Steps(g, a, q, n - 1);
      StepsStayInside(g, a, q, n - 1);
    }
  }

  lemma StepsCompose(g: Graph, a: BlockId, b: BlockId, c: BlockId, m: nat, n: nat)
    requires Steps(g, a, b, m) && Steps(g, b, c, n)
    ensures Steps(g, a, c, m + n)
    decreases n
  {
    if n > 0 {
      var q :| q in g[c] && Steps(g, b, q, n - 1);
      StepsCompose(g, a, b, q, m, n - 1);
    }
  }

  lemma AncTransitive(g: Graph, a: BlockId, b: BlockId, c: BlockId)
    requires Anc(g, a, b) && Anc(g, b, c)
    ensures Anc(g, a, c)
  {
    var m :| m > 0 && Steps(g, a, b, m);
    var n :| n > 0 && Steps(g, b, c, n);
    StepsCompose(g, a, b, c, m, n);
  }

  lemma ParentIsAnc(g: Graph, b: BlockId, q: BlockId)
    requires b in g && q in g[b]
    ensures Anc(g, q, b)
  {
    assert Steps(g, q, q, 0);
    assert Steps(g, q, b, 1);
  }

  lemma AncUnfold(g: Graph, a: BlockId, b: BlockId)
    requires Anc(g, a, b)
    ensures b in g && exists q :: q in g[b] && (a == q || Anc(g, a, q))
  {
    var n :| n > 0 && Steps(g, a, b, n);
    var q :| q in g[b] && Steps(g, a, q, n - 1);
    if n - 1 > 0 {
      assert Anc(g, a, q);
    }
  }

  /** A block's past is its parents together with their pasts. */
  lemma PastUnfold(g: Graph, b: BlockId)
    requires Closed(g) && b in g
    ensures Past(g, b) == PastOf(g, g[b])
  {
    forall a | a in Past(g, b) ensures a in PastOf(g, g[b]) {
      AncUnfold(g, a, b);
      var q :| q in g[b] && (a == q || Anc(g, a, q));
      assert a in PastEq(g, q);
    }
    forall a | a in PastOf(g, g[b]) ensures a in Past(g, b) {
      var q :| q in g[b] && a in PastEq(g, q);
      ParentIsAnc(g, b, q);
      if a != q {
        AncTransitive(g, a, q, b);
      }
    }
  }

  lemma PastSubset(g: Graph, a: BlockId, b: BlockId)
    requires a in Past(g, b)
    ensures Past(g, a) <= Past(g, b)
  {
    forall x | x in Past(g, a) ensures x in Past(g, b) {
      AncTransitive(g, x, a, b);
    }
  }

  /** Strict ancestors have strictly smaller pasts: the measure behind every
      recursion over the DAG. */
  lemma PastShrinks(g: Graph, a: BlockId, b: BlockId)
    requires Acyclic(g) && a in Past(g, b)
    ensures Past(g, a) < Past(g, b) && |Past(g, a)| < |Past(g, b)|
  {
    PastSubset(g, a, b);
    assert a !in Past(g, a);
    SubsetCardinality(Past(g, a), Past(g, b));
  }

  lemma SubsetCardinality<T>(a: set<T>, b: set<T>)
    requires a <= b
    ensures |a| <= |b|
    ensures a < b ==> |a| < |b|
  {
    assert b == a + (b - a);
    assert |b| == |a| + |b - a|;
    if a < b {
      var x :| x in b && x !in a;
      assert x in b - a;
    }
  }

  lemma StepsFrame(g: Graph, n: BlockId, ps: seq<BlockId>, a: BlockId, b: BlockId, k: nat)
    requires Closed(g) && n !in g && b in g
    ensures Steps(g[n := ps], a, b, k) <==> Steps(g, a, b, k)
    decreases k
  {
    if k > 0 {
      forall q | q in g[b] ensures Steps(g[n := ps], a, q, k - 1) <==> Steps(g, a, q, k - 1) {
        StepsFrame(g, n, ps, a, q, k - 1);
      }
    }
  }

  lemma PastFrame(g: Graph, n: BlockId, ps: seq<BlockId>, b: BlockId)
    requires Closed(g) && n !in g && b in g
    ensures Past(g[n := ps], b) == Past(g, b)
  {
    var h := g[n := ps];
    forall a ensures Anc(h, a, b) <==> Anc(g, a, b) {
      forall k: nat ensures Steps(h, a, b, k) <==> Steps(g, a, b, k) {
        StepsFrame(g, n, ps, a, b, k);
      }
    }
    forall a | a in Past(h, b) ensures a in g {
      var k :| k > 0 && Steps(g, a, b, k);
      StepsStayInside(g, a, b, k);
    }
  }

  /** Appending a block whose parents are present changes no existing past and
      keeps the graph acyclic. */
  lemma AppendLeaf(g: Graph, n: BlockId, ps: seq<BlockId>)
    requires WellFormed(g) && n !in g && forall p :: p in ps ==> p in g
    ensures WellFormed(g[n := ps])
    ensures forall b :: b in g ==> Past(g[n := ps], b) == Past(g, b)
    ensures Past(g[n := ps], n) == PastOf(g, ps)
  {
    var h := g[n := ps];
    forall b | b in g ensures Past(h, b) == Past(g, b) {
      PastFrame(g, n, ps, b);
    }
    PastUnfold(h, n);
    forall a | a in PastOf(h, ps) ensures a in PastOf(g, ps) {
      var q :| q in ps && a in PastEq(h, q);
      assert a in PastEq(g, q);
    }
    forall a | a in PastOf(g, ps) ensures a in PastOf(h, ps) {
      var q :| q in ps && a in PastEq(g, q);
      assert a in PastEq(h, q);
    }
    forall b | b in h ensures !Anc(h, b, b) {
      if b == n {
        assert n !in PastOf(g, ps);
      } else {
        assert b !in Past(g, b);
      }
    }
  }
}
