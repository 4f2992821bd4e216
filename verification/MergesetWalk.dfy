/** The backward walk that collects a mergeset. */
module MergesetWalk {
  import opened Types
  import opened Graphs

  ghost predicate Known(seen: set<BlockId>, queue: seq<BlockId>, x: BlockId) {
    x in seen || x in queue
  }

  /** Parent `q` of merged block `x` has been seen or is waiting. */
  ghost predicate Followed(g: Graph, seen: set<BlockId>, queue: seq<BlockId>, x: BlockId, q: BlockId) {
    x in g && q in g[x] ==> Known(seen, queue, q)
  }

  /** The walk from `ps`, which stops at `sp` and its past. */
  ghost predicate Walking(g: Graph, ps: seq<BlockId>, sp: BlockId, seen: set<BlockId>, queue: seq<BlockId>,
                          merged: seq<BlockId>) {
    && seen <= PastOf(g, ps) && Elements(queue) <= PastOf(g, ps)
    && Distinct(merged) && Elements(merged) == seen - PastEq(g, sp)
    && (forall p {:trigger Known(seen, queue, p)} :: p in ps ==> Known(seen, queue, p))
    && (forall x, q {:trigger Followed(g, seen, queue, x, q)} :: x in merged ==> Followed(g, seen, queue, x, q))
  }

  lemma StartWalk(g: Graph, ps: seq<BlockId>, sp: BlockId)
    requires forall p :: p in ps ==> p in g
    ensures Walking(g, ps, sp, {}, ps, [])
  {
    forall p | p in ps ensures p in PastOf(g, ps) {
      assert p in PastEq(g, p);
    }
  }

  /** Taking a block already seen, or a boundary block, off the queue. */
  lemma SkipBlock(g: Graph, ps: seq<BlockId>, sp: BlockId, seen: set<BlockId>, queue: seq<BlockId>,
                  merged: seq<BlockId>)
    requires Walking(g, ps, sp, seen, queue, merged) && queue != []
    requires queue[0] in seen || queue[0] in PastEq(g, sp)
    ensures Walking(g, ps, sp, seen + {queue[0]}, queue[1..], merged)
  {
    var x := queue[0];
    StillKnown(seen, queue);
    assert x in Elements(queue);
    hide PastOf, PastEq;
    assert Elements(queue[1..]) <= Elements(queue);
    assert Elements(merged) == seen + {x} - PastEq(g, sp);
    forall y, q | y in merged ensures Followed(g, seen + {x}, queue[1..], y, q) {
      assert Followed(g, seen, queue, y, q);
    }
  }

  lemma StillKnown(seen: set<BlockId>, queue: seq<BlockId>)
    requires queue != []
    ensures forall y {:trigger Known(seen + {queue[0]}, queue[1..], y)} ::
              Known(seen, queue, y) ==> Known(seen + {queue[0]}, queue[1..], y)
  {
    assert forall y :: y in queue <==> y == queue[0] || y in queue[1..];
  }

  /** Merging a new block and queueing its parents. */
  lemma MergeBlock(g: Graph, ps: seq<BlockId>, sp: BlockId, seen: set<BlockId>, queue: seq<BlockId>,
                   merged: seq<BlockId>)
    requires Walking(g, ps, sp, seen, queue, merged) && queue != [] && Closed(g)
    requires queue[0] !in seen && queue[0] !in PastEq(g, sp)
    ensures queue[0] in g
    ensures Walking(g, ps, sp, seen + {queue[0]}, queue[1..] + g[queue[0]], merged + [queue[0]])
  {
    var x := queue[0];
    assert x in Elements(queue);
    var seen', queue', merged' := seen + {x}, queue[1..] + g[x], merged + [x];
    forall q | q in g[x] ensures q in PastOf(g, ps) {
      PastOfDown(g, ps, x, q);
    }
    hide PastOf, PastEq;
    assert forall y :: y in queue <==> y == x || y in queue[1..];
    forall y | y in queue' ensures y in Elements(queue) || y in g[x] {
    }
    assert Elements(merged') == seen' - PastEq(g, sp) by {
      assert forall y :: y in merged' <==> y in Elements(merged) || y == x;
    }
    assert x !in Elements(merged);
    forall y ensures Known(seen, queue, y) ==> Known(seen', queue', y) {
    }
    forall y, q | y in merged' ensures Followed(g, seen', queue', y, q) {
      assert y in merged ==> Followed(g, seen, queue, y, q);
    }
  }

  lemma PastOfDown(g: Graph, ps: seq<BlockId>, x: BlockId, q: BlockId)
    requires Closed(g) && x in PastOf(g, ps) && q in g[x]
    ensures q in PastOf(g, ps)
  {
    var p :| p in ps && x in PastEq(g, p);
    ParentIsAnc(g, x, q);
    if x != p {
      AncTransitive(g, q, x, p);
    }
    assert q in PastEq(g, p);
  }

  lemma {:induction false} Reached(g: Graph, ps: seq<BlockId>, sp: BlockId, seen: set<BlockId>, merged: seq<BlockId>,
                                   x: BlockId, y: BlockId)
    requires WellFormed(g) && Walking(g, ps, sp, seen, [], merged)
    requires x in seen && y in PastEq(g, x) && y !in PastEq(g, sp)
    ensures y in seen
    decreases |Past(g, x)|
  {
    if y != x {
      if x in Past(g, sp) {
        AncTransitive(g, y, x, sp);
      }
      assert x in Elements(merged);
      AncUnfold(g, y, x);
      var q :| q in g[x] && (y == q || Anc(g, y, q));
      assert Followed(g, seen, [], x, q);
      ParentIsAnc(g, x, q);
      PastShrinks(g, q, x);
      Reached(g, ps, sp, seen, merged, q, y);
    }
  }

  /** When the queue is empty exactly the mergeset has been collected. */
  lemma WalkDone(g: Graph, ps: seq<BlockId>, sp: BlockId, seen: set<BlockId>, merged: seq<BlockId>)
    requires WellFormed(g) && Walking(g, ps, sp, seen, [], merged)
    ensures Elements(merged) == PastOf(g, ps) - PastEq(g, sp)
  {
    forall y | y in PastOf(g, ps) && y !in PastEq(g, sp) ensures y in seen {
      var p :| p in ps && y in PastEq(g, p);
      assert Known(seen, [], p);
      Reached(g, ps, sp, seen, merged, p, y);
    }
  }
}
