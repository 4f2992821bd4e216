/** Re-laying-out a subtree inside a given interval, one block at a time. */
module Layout {
  import opened Types
  import opened Arithmetic
  import opened Trees

  datatype Frame = Frame(node: BlockId, lo: nat, hi: nat)

  /** The slices handed to a block's children: in list order, side by side, each with
      room for its whole subtree, all below the cursor that marks what is left. */
  ghost predicate ChildFrames(children: seq<BlockId>, sz: map<BlockId, int>, lo: nat, hi: nat, frames: seq<Frame>,
                              cursor: nat) {
    && |frames| == |children| && lo < cursor <= hi + 1
    && (forall i {:trigger frames[i]} :: 0 <= i < |frames| ==>
          && frames[i].node == children[i] && children[i] in sz
          && lo < frames[i].lo <= frames[i].hi < cursor
          && frames[i].lo + sz[children[i]] <= frames[i].hi + 1)
    && (forall i, j {:trigger frames[i], frames[j]} :: 0 <= i < j < |frames| ==> frames[i].hi < frames[j].lo)
  }

  /** A child's part of the slack, in proportion to its size, rounded down. */
  function Share(slack: nat, size: nat, total: nat): nat
    requires total > 0
  {
    slack * size / total
  }

  lemma ProportionalShare(slack: nat, given: nat, used: nat, s: nat, total: nat)
    requires total > 0 && used + s <= total && given * total <= slack * used
    ensures (given + Share(slack, s, total)) * total <= slack * (used + s)
    ensures given + Share(slack, s, total) <= slack
    // Rounding loses less than one place for each share.
    ensures slack * (used + s) - (given + Share(slack, s, total)) * total < slack * used - given * total + total
  {
    var product := slack * s;
    var e := product / total;
    DivBounds(product, total);
    Spread(given, e, total);
    Spread(used, s, slack);
    MulLe(used + s, total, slack);
    if given + e > slack {
      MulLe(slack + 1, given + e, total);
      Spread(slack, 1, total);
    }
  }

  /** What `n` rounded shares of `used` parts in `total` have given away of the slack. */
  ghost predicate Rounded(slack: nat, used: int, given: nat, total: nat, n: nat) {
    given * total <= slack * used && slack * used - given * total <= n * (total - 1)
  }

  lemma NoneGiven(slack: nat, total: nat)
    ensures Rounded(slack, 0, 0, total, 0)
  {
  }

  lemma OneMoreGiven(slack: nat, used: nat, given: nat, s: nat, total: nat, n: nat)
    requires total > 0 && used + s <= total && Rounded(slack, used, given, total, n)
    ensures Rounded(slack, used + s, given + Share(slack, s, total), total, n + 1)
    ensures given + Share(slack, s, total) <= slack
  {
    ProportionalShare(slack, given, used, s, total);
    Spread(n, 1, total - 1);
    hide Share;
  }

  lemma AllGiven(slack: nat, given: nat, total: nat, n: nat)
    requires total > 0 && n > 0 && Rounded(slack, total, given, total, n)
    ensures slack - n < given <= slack
  {
    if given > slack {
      MulLe(slack + 1, given, total);
      Spread(slack, 1, total);
    }
    if given + n <= slack {
      MulLe(given + n, slack, total);
      Spread(given, n, total);
      Spread(total, -1, n);
    }
  }

  /** Slice `i` exactly: it starts where the one before it ends, and is as wide as the child's
      subtree and its share of the slack together. */
  ghost predicate FairSlice(children: seq<BlockId>, sz: map<BlockId, int>, lo: nat, slack: nat, total: nat,
                            frames: seq<Frame>, i: nat)
    requires total > 0
  {
    && i < |frames| && i < |children| && children[i] in sz && sz[children[i]] > 0
    && frames[i].lo == (if i == 0 then lo + 1 else frames[i - 1].hi + 1)
    && frames[i].hi + 1 - frames[i].lo == sz[children[i]] + Share(slack, sz[children[i]], total)
  }

  ghost predicate FairSlices(children: seq<BlockId>, sz: map<BlockId, int>, lo: nat, slack: nat, total: nat,
                             frames: seq<Frame>, cursor: nat)
    requires total > 0
  {
    && cursor == (if frames == [] then lo + 1 else frames[|frames| - 1].hi + 1)
    && forall i: nat {:trigger FairSlice(children, sz, lo, slack, total, frames, i)} ::
         i < |frames| ==> FairSlice(children, sz, lo, slack, total, frames, i)
  }

  lemma FairSlicesStart(children: seq<BlockId>, sz: map<BlockId, int>, lo: nat, slack: nat, total: nat)
    requires total > 0
    ensures FairSlices(children, sz, lo, slack, total, [], lo + 1)
  {
  }

  lemma FairSlicesGrow(children: seq<BlockId>, sz: map<BlockId, int>, lo: nat, slack: nat, total: nat,
                       frames: seq<Frame>, cursor: nat, extra: nat)
    requires total > 0 && FairSlices(children, sz, lo, slack, total, frames, cursor) && |frames| < |children|
    requires && children[|frames|] in sz && sz[children[|frames|]] > 0
             && extra == Share(slack, sz[children[|frames|]], total)
    ensures var next := cursor + sz[children[|frames|]] + extra;
            FairSlices(children, sz, lo, slack, total, frames + [Frame(children[|frames|], cursor, next - 1)], next)
  {
    hide Share;
    var next := cursor + sz[children[|frames|]] + extra;
    var grown := frames + [Frame(children[|frames|], cursor, next - 1)];
    forall i: nat | i < |grown| ensures FairSlice(children, sz, lo, slack, total, grown, i) {
      if i < |frames| {
        assert FairSlice(children, sz, lo, slack, total, frames, i);
      }
    }
  }

  lemma NoFrames(sz: map<BlockId, int>, lo: nat, hi: nat)
    requires lo <= hi
    ensures ChildFrames([], sz, lo, hi, [], lo + 1)
  {
  }

  lemma FramesGrow(children: seq<BlockId>, sz: map<BlockId, int>, lo: nat, hi: nat, frames: seq<Frame>, cursor: nat,
                   i: nat, next: nat)
    requires i < |children| && children[i] in sz && sz[children[i]] > 0
    requires ChildFrames(children[..i], sz, lo, hi, frames, cursor)
    requires cursor + sz[children[i]] <= next <= hi + 1
    ensures ChildFrames(children[..i + 1], sz, lo, hi, frames + [Frame(children[i], cursor, next - 1)], next)
  {
    var grown, shown := frames + [Frame(children[i], cursor, next - 1)], children[..i + 1];
    assert |frames| == i && |grown| == |shown|;
    assert grown[i] == Frame(children[i], cursor, next - 1) && shown[i] == children[i];
    forall k {:trigger grown[k]} | 0 <= k < |grown|
      ensures && grown[k].node == shown[k] && shown[k] in sz
              && lo < grown[k].lo <= grown[k].hi < next
              && grown[k].lo + sz[shown[k]] <= grown[k].hi + 1
    {
      if k < i {
        assert grown[k] == frames[k] && shown[k] == children[..i][k];
      }
    }
    forall j, k {:trigger grown[j], grown[k]} | 0 <= j < k < |grown| ensures grown[j].hi < grown[k].lo {
      assert grown[j] == frames[j];
      if k < i {
        assert grown[k] == frames[k];
      }
    }
    assert ChildFrames(shown, sz, lo, hi, grown, next);
  }

  lemma {:induction false} SumSizesPrefix(s: seq<BlockId>, sz: map<BlockId, int>, i: nat)
    requires i <= |s|
    requires forall i {:trigger s[i]} :: 0 <= i < |s| ==> s[i] in sz && sz[s[i]] > 0
    ensures 0 <= SumSizes(s[..i], sz) <= SumSizes(s, sz)
    decreases |s| - i
  {
    if i == |s| {
      assert s[..i] == s;
      if i > 0 {
        SumSizesPositive(s, sz);
      }
    } else {
      assert s[..i + 1][..i] == s[..i];
      SumSizesPrefix(s, sz, i + 1);
      SumSizesPositive(s[..i], sz);
    }
  }

  lemma {:induction false} SumSizesPositive(s: seq<BlockId>, sz: map<BlockId, int>)
    requires forall i {:trigger s[i]} :: 0 <= i < |s| ==> s[i] in sz && sz[s[i]] > 0
    ensures SumSizes(s, sz) >= |s|
  {
    if s != [] {
      SumSizesPositive(s[..|s| - 1], sz);
    }
  }

  /** Slice `[lo + 1, hi]` among `children`: each gets its subtree size and a share of
      the slack proportional to it. */
  method LayChildren(children: seq<BlockId>, sz: map<BlockId, int>, lo: nat, hi: nat, total: nat)
    returns (frames: seq<Frame>, cursor: nat)
    requires forall i {:trigger children[i]} :: 0 <= i < |children| ==> children[i] in sz && sz[children[i]] > 0
    requires 0 < total == SumSizes(children, sz) <= hi - lo
    ensures ChildFrames(children, sz, lo, hi, frames, cursor)
    ensures |frames| == |children| && FairSlices(children, sz, lo, hi - lo - total, total, frames, cursor)
    // Less than one place for each child is left unused.
    ensures 0 <= hi + 1 - cursor < |children|
  {
    hide Share, ChildFrames, FairSlices, Rounded;
    FairSlicesStart(children, sz, lo, hi - lo - total, total);
    var slack := hi - lo - total;
    frames, cursor := [], lo + 1;
    ghost var given: nat := 0;
    NoneGiven(slack, total);
    assert children[..0] == [];
    NoFrames(sz, lo, hi);
    for i := 0 to |children|
      invariant ChildFrames(children[..i], sz, lo, hi, frames, cursor)
      invariant cursor == lo + 1 + SumSizes(children[..i], sz) + given
      invariant Rounded(slack, SumSizes(children[..i], sz), given, total, i)
      invariant |frames| == i && FairSlices(children, sz, lo, slack, total, frames, cursor)
    {
      var child := children[i];
      var size := sz[child];
      assert children[..i + 1][..i] == children[..i];
      assert SumSizes(children[..i + 1], sz) == SumSizes(children[..i], sz) + size;
      SumSizesPrefix(children, sz, i);
      SumSizesPrefix(children, sz, i + 1);
      var extra := Share(slack, size, total);
      OneMoreGiven(slack, SumSizes(children[..i], sz), given, size, total, i);
      given := given + extra;
      var span := size + extra;
      FramesGrow(children, sz, lo, hi, frames, cursor, i, cursor + span);
      FairSlicesGrow(children, sz, lo, slack, total, frames, cursor, extra);
      frames := frames + [Frame(child, cursor, cursor + (span - 1))];
      cursor := cursor + (span - 1) + 1;
    }
    assert children[..|children|] == children;
    AllGiven(slack, given, total, |children|);
  }

  // ------------------------------------------------------------------
  // The state of a relayout in progress

  /** The intervals fixed so far: those of finished blocks and of blocks on the stack. */
  type Assigned = Intervals

  ghost predicate Roomy(asg: Assigned, sz: map<BlockId, int>, x: BlockId) {
    x in asg && x in sz && asg[x].lo + sz[x] <= asg[x].hi + 1
  }

  ghost predicate Stacked(stack: seq<Frame>, asg: Assigned, done: set<BlockId>, i: nat) {
    && i < |stack| && stack[i].node in asg && stack[i].node !in done
    && asg[stack[i].node] == Span(stack[i].lo, stack[i].hi)
  }

  ghost predicate Framed(stack: seq<Frame>, x: BlockId) {
    exists i :: 0 <= i < |stack| && stack[i].node == x
  }

  ghost predicate Finished(asg: Assigned, iv: Intervals, nf: Marks, x: BlockId) {
    x in asg && MarkLaid(iv, nf, x) && iv[x] == asg[x]
  }

  ghost predicate Attached(tp: Parents, done: set<BlockId>, c: BlockId) {
    c in tp && tp[c] in done
  }

  ghost predicate Progress(tp: Parents, chain: Chains, sz: map<BlockId, int>, r: BlockId, asg: Assigned,
                           done: set<BlockId>, iv: Intervals, nf: Marks) {
    && done <= asg.Keys <= Subtree(chain, r) && r in asg
    && (forall x {:trigger Finished(asg, iv, nf, x)} :: x in done ==> Finished(asg, iv, nf, x))
    && (forall x {:trigger Roomy(asg, sz, x)} :: x in asg ==> Roomy(asg, sz, x))
    && (forall c {:trigger Attached(tp, done, c)} :: c in asg && c != r ==> Attached(tp, done, c))
    && (forall c {:trigger ChildLaid(tp, asg, nf, c)} :: Attached(tp, done, c) ==> ChildLaid(tp, asg, nf, c))
    && (forall c, d {:trigger SiblingsLaid(tp, asg, c, d)} ::
          Attached(tp, done, c) && Attached(tp, done, d) ==> SiblingsLaid(tp, asg, c, d))
  }

  ghost predicate StackOk(stack: seq<Frame>, asg: Assigned, done: set<BlockId>) {
    && (forall i {:trigger Stacked(stack, asg, done, i)} :: 0 <= i < |stack| ==> Stacked(stack, asg, done, i))
    && (forall i, j {:trigger stack[i], stack[j]} :: 0 <= i < j < |stack| ==> stack[i].node != stack[j].node)
    && (forall x {:trigger Framed(stack, x)} :: x in asg && x !in done ==> Framed(stack, x))
  }

  /** What a relayout of the subtree of `r` leaves behind. */
  ghost predicate LaidWithin(tp: Parents, chain: Chains, iv: Intervals, nf: Marks, r: BlockId) {
    && (forall x {:trigger MarkLaid(iv, nf, x)} :: TreeReach(chain, r, x) ==> MarkLaid(iv, nf, x))
    && (forall c {:trigger ChildLaid(tp, iv, nf, c)} ::
          c in tp && TreeReach(chain, r, tp[c]) ==> ChildLaid(tp, iv, nf, c))
    && (forall c, d {:trigger SiblingsLaid(tp, iv, c, d)} ::
          c in tp && d in tp && tp[c] == tp[d] && TreeReach(chain, r, tp[c]) ==> SiblingsLaid(tp, iv, c, d))
  }

  /** Every block of the subtree keeps room for the blocks below it. */
  ghost predicate RoomyWithin(chain: Chains, sz: map<BlockId, int>, iv: Intervals, r: BlockId) {
    forall x {:trigger Roomy(iv, sz, x)} :: TreeReach(chain, r, x) ==> Roomy(iv, sz, x)
  }

  ghost predicate DistinctNodes(frames: seq<Frame>) {
    forall i, j {:trigger frames[i], frames[j]} :: 0 <= i < j < |frames| ==> frames[i].node != frames[j].node
  }

  ghost function Assign(asg: Assigned, frames: seq<Frame>): Assigned {
    if frames == [] then asg
    else
      var last := frames[|frames| - 1];
      Assign(asg, frames[..|frames| - 1])[last.node := Span(last.lo, last.hi)]
  }

  lemma {:induction false} AssignKeys(asg: Assigned, frames: seq<Frame>, x: BlockId)
    ensures x in Assign(asg, frames) <==> x in asg || Framed(frames, x)
    ensures x in asg && !Framed(frames, x) ==> Assign(asg, frames)[x] == asg[x]
  {
    if frames != [] {
      var init := frames[..|frames| - 1];
      AssignKeys(asg, init, x);
      assert Framed(init, x) ==> Framed(frames, x);
      assert Framed(frames, x) ==> Framed(init, x) || frames[|frames| - 1].node == x;
    }
  }

  lemma {:induction false} AssignAt(asg: Assigned, frames: seq<Frame>, i: nat)
    requires i < |frames| && DistinctNodes(frames)
    ensures frames[i].node in Assign(asg, frames)
    ensures Assign(asg, frames)[frames[i].node] == Span(frames[i].lo, frames[i].hi)
  {
    var init := frames[..|frames| - 1];
    if i < |init| {
      assert forall k {:trigger init[k]} :: 0 <= k < |init| ==> init[k] == frames[k];
      AssignAt(asg, init, i);
      assert frames[i].node != frames[|frames| - 1].node;
    }
  }

  /** The frames of a block's children, seen as assigned intervals. */
  lemma FramesAreChildren(tp: Parents, ch: map<BlockId, seq<BlockId>>, sz: map<BlockId, int>, node: BlockId, lo: nat,
                          hi: nat, frames: seq<Frame>, cursor: nat)
    requires ChildrenListed(tp, ch, node)
    requires ChildFrames(ch[node], sz, lo, hi, frames, cursor)
    ensures DistinctNodes(frames)
    ensures forall c {:trigger Framed(frames, c)} {:trigger IsChild(tp, node, c)} ::
              Framed(frames, c) <==> IsChild(tp, node, c)
  {
    forall c | Framed(frames, c) ensures IsChild(tp, node, c) {
      var i :| 0 <= i < |frames| && frames[i].node == c;
      assert c in ch[node];
    }
    forall c | IsChild(tp, node, c) ensures Framed(frames, c) {
      var i :| 0 <= i < |ch[node]| && ch[node][i] == c;
      assert frames[i].node == c;
    }
  }

  /** A child slice read back from the assignment. */
  lemma SliceOf(children: seq<BlockId>, sz: map<BlockId, int>, lo: nat, hi: nat, frames: seq<Frame>, cursor: nat,
                asg: Assigned, c: BlockId)
    returns (i: nat)
    requires ChildFrames(children, sz, lo, hi, frames, cursor) && DistinctNodes(frames) && Framed(frames, c)
    ensures i < |frames| && frames[i].node == c
    ensures c in Assign(asg, frames) && Assign(asg, frames)[c] == Span(frames[i].lo, frames[i].hi)
    ensures c in sz && lo < frames[i].lo <= frames[i].hi < cursor
    ensures frames[i].lo + sz[c] <= frames[i].hi + 1
  {
    i :| 0 <= i < |frames| && frames[i].node == c;
    AssignAt(asg, frames, i);
  }

  /** Finishing one block fixes its own labels and hands its children their slices. */
  lemma FinishBlock(tp: Parents, root: BlockId, chain: Chains, ch: map<BlockId, seq<BlockId>>, sz: map<BlockId, int>,
                    r: BlockId, asg: Assigned, done: set<BlockId>, iv: Intervals, nf: Marks, node: BlockId,
                    frames: seq<Frame>, cursor: nat)
    requires IsTree(tp, root, chain) && ChildrenListed(tp, ch, node)
    requires Progress(tp, chain, sz, r, asg, done, iv, nf) && node in asg && node !in done
    requires ChildFrames(ch[node], sz, asg[node].lo, asg[node].hi, frames, cursor)
    ensures Progress(tp, chain, sz, r, Assign(asg, frames), done + {node}, iv[node := asg[node]], nf[node := cursor])
    ensures forall c {:trigger Framed(frames, c)} :: Framed(frames, c) ==> c !in asg
    ensures DistinctNodes(frames)
  {
    hide ChildFrames, Assign, IsTree, Framed;
    var lo, hi := asg[node].lo, asg[node].hi;
    FramesAreChildren(tp, ch, sz, node, lo, hi, frames, cursor);
    FrameBounds(ch[node], sz, lo, hi, frames, cursor);
    var asg', done', iv', nf' := Assign(asg, frames), done + {node}, iv[node := asg[node]], nf[node := cursor];
    forall c | Framed(frames, c) ensures c !in asg && c in Subtree(chain, r) && c != r {
      BelowChild2(tp, root, chain, r, node, c);
      assert c in asg ==> Attached(tp, done, c);
    }
    forall x ensures x in asg' <==> x in asg || Framed(frames, x)
      ensures x in asg ==> asg'[x] == asg[x]
    {
      AssignKeys(asg, frames, x);
    }
    forall x | x in done' ensures Finished(asg', iv', nf', x) {
      assert x != node ==> Finished(asg, iv, nf, x);
      assert MarkLaid(iv', nf', x);
    }
    forall x | x in asg' ensures Roomy(asg', sz, x) {
      if Framed(frames, x) {
        var i := SliceOf(ch[node], sz, lo, hi, frames, cursor, asg, x);
      } else {
        assert Roomy(asg, sz, x);
      }
    }
    forall c | c in asg' && c != r ensures Attached(tp, done', c) {
      if !Framed(frames, c) {
        assert Attached(tp, done, c);
      }
    }
    forall c | Attached(tp, done', c) ensures ChildLaid(tp, asg', nf', c) {
      if tp[c] == node {
        assert IsChild(tp, node, c);
        var i := SliceOf(ch[node], sz, lo, hi, frames, cursor, asg, c);
      } else {
        assert Attached(tp, done, c) && ChildLaid(tp, asg, nf, c) && Finished(asg, iv, nf, tp[c]);
      }
    }
    forall c, d | Attached(tp, done', c) && Attached(tp, done', d) ensures SiblingsLaid(tp, asg', c, d) {
      assert ChildLaid(tp, asg', nf', c) && ChildLaid(tp, asg', nf', d);
      if tp[c] == node == tp[d] && c != d {
        assert IsChild(tp, node, c) && IsChild(tp, node, d);
        var i := SliceOf(ch[node], sz, lo, hi, frames, cursor, asg, c);
        var j := SliceOf(ch[node], sz, lo, hi, frames, cursor, asg, d);
        FramesApart(ch[node], sz, lo, hi, frames, cursor, i, j);
      } else if tp[c] != node && tp[d] != node {
        assert Attached(tp, done, c) && Attached(tp, done, d) && SiblingsLaid(tp, asg, c, d);
        assert ChildLaid(tp, asg, nf, c) && ChildLaid(tp, asg, nf, d);
      }
    }
  }

  lemma BelowChild2(tp: Parents, root: BlockId, chain: Chains, r: BlockId, x: BlockId, c: BlockId)
    requires IsTree(tp, root, chain) && TreeReach(chain, r, x) && IsChild(tp, x, c)
    ensures TreeReach(chain, r, c) && c != r
  {
    assert Linked(tp, chain, c);
    ChainPrefix(tp, root, chain, r, x);
  }

  lemma FrameBounds(children: seq<BlockId>, sz: map<BlockId, int>, lo: nat, hi: nat, frames: seq<Frame>, cursor: nat)
    requires ChildFrames(children, sz, lo, hi, frames, cursor)
    ensures lo < cursor <= hi + 1
  {
  }

  lemma FramesApart(children: seq<BlockId>, sz: map<BlockId, int>, lo: nat, hi: nat, frames: seq<Frame>, cursor: nat,
                    i: nat, j: nat)
    requires ChildFrames(children, sz, lo, hi, frames, cursor) && i < |frames| && j < |frames| && i != j
    ensures Disjoint(Span(frames[i].lo, frames[i].hi), Span(frames[j].lo, frames[j].hi))
  {
  }

  /** The stack keeps naming exactly the assigned blocks still to be finished. */
  lemma StackStep(stack: seq<Frame>, asg: Assigned, done: set<BlockId>, frames: seq<Frame>)
    requires |stack| > 0 && StackOk(stack, asg, done) && DistinctNodes(frames) && done <= asg.Keys
    requires forall c {:trigger Framed(frames, c)} :: Framed(frames, c) ==> c !in asg
    ensures StackOk(stack[..|stack| - 1] + frames, Assign(asg, frames), done + {stack[|stack| - 1].node})
  {
    hide Assign;
    var n := |stack| - 1;
    var node := stack[n].node;
    var stack', asg', done' := stack[..n] + frames, Assign(asg, frames), done + {node};
    assert Stacked(stack, asg, done, n);
    forall i: nat {:trigger stack'[i]} | i < |stack'|
      ensures i < n ==> stack'[i] == stack[i] && Stacked(stack, asg, done, i)
      ensures i >= n ==> stack'[i] == frames[i - n] && Framed(frames, stack'[i].node)
    {
    }
    forall i | 0 <= i < |stack'| ensures Stacked(stack', asg', done', i) {
      if i < n {
        AssignKeys(asg, frames, stack[i].node);
        assert stack[i].node != node;
      } else {
        AssignAt(asg, frames, i - n);
      }
    }
    forall x | x in asg' && x !in done' ensures Framed(stack', x) {
      AssignKeys(asg, frames, x);
      if Framed(frames, x) {
        var i :| 0 <= i < |frames| && frames[i].node == x;
        assert stack'[n + i].node == x;
      } else {
        assert Framed(stack, x);
        var i :| 0 <= i < |stack| && stack[i].node == x;
        assert stack'[i].node == x;
      }
    }
  }

  lemma {:induction false} DoneIsSubtree(tp: Parents, root: BlockId, chain: Chains, sz: map<BlockId, int>, r: BlockId,
                                         asg: Assigned, done: set<BlockId>, iv: Intervals, nf: Marks, x: BlockId)
    requires IsTree(tp, root, chain) && Progress(tp, chain, sz, r, asg, done, iv, nf)
    requires done == asg.Keys && TreeReach(chain, r, x)
    ensures x in done
    decreases |chain[x]|
  {
    if x != r {
      StepUp(tp, root, chain, r, x);
      DoneIsSubtree(tp, root, chain, sz, r, asg, done, iv, nf, tp[x]);
      assert Attached(tp, done, x) && ChildLaid(tp, asg, nf, x);
    }
  }

  /** With an empty stack the whole subtree is laid out. */
  lemma RelayoutDone(tp: Parents, root: BlockId, chain: Chains, sz: map<BlockId, int>, r: BlockId, asg: Assigned,
                     done: set<BlockId>, iv: Intervals, nf: Marks)
    requires IsTree(tp, root, chain) && Progress(tp, chain, sz, r, asg, done, iv, nf) && StackOk([], asg, done)
    ensures done == Subtree(chain, r)
    ensures r in iv && iv[r] == asg[r] && LaidWithin(tp, chain, iv, nf, r) && RoomyWithin(chain, sz, iv, r)
  {
    assert forall x :: x in asg ==> x in done || Framed([], x);
    assert Finished(asg, iv, nf, r);
    forall x | TreeReach(chain, r, x)
      ensures x in done && Finished(asg, iv, nf, x) && MarkLaid(iv, nf, x) && Roomy(iv, sz, x)
    {
      DoneIsSubtree(tp, root, chain, sz, r, asg, done, iv, nf, x);
      assert Finished(asg, iv, nf, x) && Roomy(asg, sz, x);
    }
    forall c | c in tp && TreeReach(chain, r, tp[c]) ensures ChildLaid(tp, iv, nf, c) {
      assert Linked(tp, chain, c) && TreeReach(chain, r, c);
      assert Attached(tp, done, c) && ChildLaid(tp, asg, nf, c);
      assert Finished(asg, iv, nf, c) && Finished(asg, iv, nf, tp[c]);
    }
    forall c, d | c in tp && d in tp && tp[c] == tp[d] && TreeReach(chain, r, tp[c])
      ensures SiblingsLaid(tp, iv, c, d)
    {
      assert Linked(tp, chain, c) && TreeReach(chain, r, c);
      assert Linked(tp, chain, d) && TreeReach(chain, r, d);
      assert Attached(tp, done, c) && Attached(tp, done, d) && SiblingsLaid(tp, asg, c, d);
      assert Finished(asg, iv, nf, c) && Finished(asg, iv, nf, d);
    }
  }
}
