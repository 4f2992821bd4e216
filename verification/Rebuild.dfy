/** Building the oracle from scratch: children lists, subtree sizes by an explicit
    post-order stack, and covering sets by walking every block's future. */
module Rebuild {
  import opened Types
  import opened Graphs
  import opened Blocks
  import opened Ghostdag
  import opened Consensus
  import opened ChainSelection
  import opened Order
  import opened Trees
  import opened Layout
  import opened Coverage

  type Listing = map<BlockId, seq<BlockId>>

  // ------------------------------------------------------------------
  // Collecting edges

  /** Entries for `x` made so far: the tree children among the blocks `seen`. */
  ghost predicate TreeListed(tp: Parents, seen: set<BlockId>, ch: Listing, x: BlockId) {
    && (x in seen ==> x in ch)
    && (x in ch ==> Distinct(ch[x]))
    && (forall c :: c in seen && IsChild(tp, x, c) ==> x in ch && c in ch[x])
    && (x in ch ==> forall c :: c in ch[x] ==> c in seen && IsChild(tp, x, c))
  }

  /** `dc` lists exactly the edges from `p` to the blocks `seen` that name it. */
  ghost predicate EdgesListed(nodes: Nodes, seen: set<BlockId>, dc: Listing, p: BlockId) {
    && (p in dc ==> forall c :: c in dc[p] ==> c in seen && c in nodes && p in nodes[c].block.parents)
    && (forall c :: c in seen && c in nodes && p in nodes[c].block.parents ==> p in dc && c in dc[p])
  }

  function Push(m: Listing, x: BlockId, c: BlockId): Listing {
    m[x := (if x in m then m[x] else []) + [c]]
  }

  /** Record block `id` and its tree edge. */
  method AddTreeEdge(ch0: Listing, id: BlockId, sp: Option<BlockId>, ghost tp: Parents, ghost seen: set<BlockId>)
    returns (ch: Listing)
    requires id !in seen && (sp.Some? <==> id in tp) && (sp.Some? ==> tp[id] == sp.value)
    requires forall x {:trigger TreeListed(tp, seen, ch0, x)} :: TreeListed(tp, seen, ch0, x)
    ensures forall x {:trigger TreeListed(tp, seen + {id}, ch, x)} :: TreeListed(tp, seen + {id}, ch, x)
    ensures ch.Keys == ch0.Keys + {id} + (if sp.Some? then {sp.value} else {})
  {
    ch := if id in ch0 then ch0 else ch0[id := []];
    ghost var mid := ch;
    if sp.Some? {
      ch := Push(ch, sp.value, id);
    }
    forall x ensures TreeListed(tp, seen + {id}, ch, x) {
      assert TreeListed(tp, seen, ch0, x);
      TreeEdgeAdded(tp, seen, ch0, mid, ch, id, sp, x);
    }
  }

  lemma TreeEdgeAdded(tp: Parents, seen: set<BlockId>, ch0: Listing, mid: Listing, ch: Listing, id: BlockId,
                      sp: Option<BlockId>, x: BlockId)
    requires id !in seen && (sp.Some? <==> id in tp) && (sp.Some? ==> tp[id] == sp.value)
    requires TreeListed(tp, seen, ch0, x)
    requires mid == (if id in ch0 then ch0 else ch0[id := []])
    requires ch == if sp.Some? then Push(mid, sp.value, id) else mid
    ensures TreeListed(tp, seen + {id}, ch, x)
  {
    if sp.Some? && x == sp.value {
      var s := if x in mid then mid[x] else [];
      assert ch[x] == s + [id] && id !in s;
      assert forall c :: c in s + [id] <==> c in s || c == id;
    }
  }

  /** Record the DAG edges from `id`'s listed parents to it. */
  method AddDagEdges(nodes: Nodes, dc0: Listing, id: BlockId, ghost seen: set<BlockId>) returns (dc: Listing)
    requires id in nodes
    requires forall p {:trigger EdgesListed(nodes, seen, dc0, p)} :: EdgesListed(nodes, seen, dc0, p)
    ensures forall p {:trigger EdgesListed(nodes, seen + {id}, dc, p)} :: EdgesListed(nodes, seen + {id}, dc, p)
  {
    dc := dc0;
    var ps := nodes[id].block.parents;
    ghost var done: seq<BlockId> := [];
    forall p ensures EdgesPartly(nodes, seen, id, done, dc, p) {
      assert EdgesListed(nodes, seen, dc0, p);
    }
    for i := 0 to |ps|
      invariant done == ps[..i]
      invariant forall p {:trigger EdgesPartly(nodes, seen, id, done, dc, p)} ::
                  EdgesPartly(nodes, seen, id, done, dc, p)
    {
      ghost var before, done' := dc, done + [ps[i]];
      dc := Push(dc, ps[i], id);
      forall p ensures EdgesPartly(nodes, seen, id, done', dc, p) {
        assert EdgesPartly(nodes, seen, id, done, before, p);
        EdgePushed(nodes, seen, id, ps, i, before, dc, p);
      }
      done := done';
    }
    assert done == ps;
    forall p ensures EdgesListed(nodes, seen + {id}, dc, p) {
      assert EdgesPartly(nodes, seen, id, done, dc, p);
      assert EdgesPartly(nodes, seen, id, ps, dc, p);
    }
  }

  /** Like `EdgesListed`, with only the parents `done` of `id` recorded. */
  ghost predicate EdgesPartly(nodes: Nodes, seen: set<BlockId>, id: BlockId, done: seq<BlockId>, dc: Listing,
                              p: BlockId) {
    && (p in dc ==> forall c :: c in dc[p] ==> c in nodes && p in nodes[c].block.parents && (c in seen || c == id))
    && (forall c :: c in seen && c in nodes && p in nodes[c].block.parents ==> p in dc && c in dc[p])
    && (p in done ==> p in dc && id in dc[p])
  }

  lemma EdgePushed(nodes: Nodes, seen: set<BlockId>, id: BlockId, ps: seq<BlockId>, i: nat, before: Listing,
                   dc: Listing, p: BlockId)
    requires id in nodes && ps == nodes[id].block.parents && i < |ps| && dc == Push(before, ps[i], id)
    requires EdgesPartly(nodes, seen, id, ps[..i], before, p)
    ensures EdgesPartly(nodes, seen, id, ps[..i] + [ps[i]], dc, p)
  {
    assert forall x :: x in ps[..i] + [ps[i]] <==> x in ps[..i] || x == ps[i];
    assert ps[i] in ps;
    if p == ps[i] {
      var s := if p in before then before[p] else [];
      assert forall c :: c in s + [id] <==> c in s || c == id;
    }
  }

  /** Tree children, tree parents and DAG children, collected in one pass over the blocks
      in any order; the children lists are then sorted. */
  method CollectEdges(nodes: Nodes) returns (treeChildren: Listing, treeParent: Parents, dagChildren: Listing)
    requires forall b :: b in SelectedParents(nodes) ==> SelectedParents(nodes)[b] in nodes
    ensures treeParent == SelectedParents(nodes) && treeChildren.Keys == nodes.Keys
    ensures forall x {:trigger ChildrenListed(treeParent, treeChildren, x)} ::
              x in nodes ==> ChildrenListed(treeParent, treeChildren, x)
    ensures forall p {:trigger EdgesListed(nodes, nodes.Keys, dagChildren, p)} ::
              EdgesListed(nodes, nodes.Keys, dagChildren, p)
  {
    treeChildren, treeParent, dagChildren := map[], map[], map[];
    ghost var tp := SelectedParents(nodes);
    var rest := nodes.Keys;
    NothingListed(nodes, tp);
    while rest != {}
      invariant rest <= nodes.Keys
      invariant forall x {:trigger TreeListed(tp, nodes.Keys - rest, treeChildren, x)} ::
                  TreeListed(tp, nodes.Keys - rest, treeChildren, x)
      invariant treeChildren.Keys <= nodes.Keys
      invariant forall b :: b in treeParent <==> b in tp && b !in rest
      invariant forall b :: b in treeParent ==> treeParent[b] == tp[b]
      invariant forall p {:trigger EdgesListed(nodes, nodes.Keys - rest, dagChildren, p)} ::
                  EdgesListed(nodes, nodes.Keys - rest, dagChildren, p)
      decreases rest
    {
      hide TreeListed, EdgesListed;
      var id :| id in rest;
      var sp := nodes[id].ghostdag.selectedParent;
      ghost var seen := nodes.Keys - rest;
      assert nodes.Keys - (rest - {id}) == seen + {id};
      treeChildren := AddTreeEdge(treeChildren, id, sp, tp, seen);
      if sp.Some? {
        treeParent := treeParent[id := sp.value];
      }
      dagChildren := AddDagEdges(nodes, dagChildren, id, seen);
      rest := rest - {id};
    }
    assert nodes.Keys - rest == nodes.Keys && treeParent == tp;
    treeChildren := SortChildren(nodes, treeChildren, tp);
  }

  lemma NothingListed(nodes: Nodes, tp: Parents)
    ensures nodes.Keys - nodes.Keys == {}
    ensures forall x {:trigger TreeListed(tp, {}, map[], x)} :: TreeListed(tp, {}, map[], x)
    ensures forall p {:trigger EdgesListed(nodes, {}, map[], p)} :: EdgesListed(nodes, {}, map[], p)
  {
  }

  /** Sort every list of children by id. The lists have no repetitions to drop. */
  method SortChildren(nodes: Nodes, ch0: Listing, ghost tp: Parents) returns (ch: Listing)
    requires ch0.Keys <= nodes.Keys && tp.Keys <= nodes.Keys
    requires forall x {:trigger TreeListed(tp, nodes.Keys, ch0, x)} :: TreeListed(tp, nodes.Keys, ch0, x)
    ensures ch.Keys == nodes.Keys
    ensures forall x {:trigger ChildrenListed(tp, ch, x)} :: x in nodes ==> ChildrenListed(tp, ch, x)
  {
    ch := ch0;
    forall x | x in nodes ensures x in ch0 {
      assert TreeListed(tp, nodes.Keys, ch0, x);
    }
    var rest := ch.Keys;
    while rest != {}
      invariant rest <= ch.Keys == nodes.Keys
      invariant forall x {:trigger ch[x]} :: x in rest ==> ch[x] == ch0[x]
      invariant forall x {:trigger ChildrenListed(tp, ch, x)} :: x in nodes && x !in rest ==> ChildrenListed(tp, ch, x)
      decreases rest
    {
      var x :| x in rest;
      rest := rest - {x};
      assert TreeListed(tp, nodes.Keys, ch0, x);
      SortIdsSorts(ch[x]);
      ghost var before := ch;
      ch := ch[x := SortIds(ch[x])];
      forall y | y in nodes && y !in rest ensures ChildrenListed(tp, ch, y) {
        assert y != x ==> ChildrenListed(tp, before, y);
      }
    }
  }

  // ------------------------------------------------------------------
  // Subtree sizes

  datatype Step = Enter(id: BlockId) | Exit(id: BlockId)

  ghost predicate OnStack(stack: seq<Step>, from: int, x: BlockId) {
    exists i :: 0 <= i < |stack| && i >= from && stack[i].id == x
  }

  /** Block `c` is finished, or waits above position `from`. */
  ghost predicate Awaited(stack: seq<Step>, from: int, open: set<BlockId>, c: BlockId) {
    c !in open || OnStack(stack, from, c)
  }

  ghost predicate StepOk(tp: Parents, chain: Chains, stack: seq<Step>, unmet: set<BlockId>, open: set<BlockId>,
                         i: int) {
    && 0 <= i < |stack| && stack[i].id in chain && stack[i].id in open
    && (stack[i].Enter? <==> stack[i].id in unmet)
    && (stack[i].Exit? ==> forall c {:trigger IsChild(tp, stack[i].id, c)} ::
          IsChild(tp, stack[i].id, c) ==> Awaited(stack, i + 1, open, c))
  }

  /** A block that is waiting or was entered has an entered parent. */
  ghost predicate ParentEntered(tp: Parents, stack: seq<Step>, unmet: set<BlockId>, y: BlockId) {
    y in tp && (y !in unmet || OnStack(stack, 0, y)) ==> tp[y] !in unmet
  }

  ghost predicate SizedBelow(tp: Parents, chain: Chains, sz: map<BlockId, int>, open: set<BlockId>, x: BlockId) {
    Sized(chain, sz, x) && forall c {:trigger IsChild(tp, x, c)} :: IsChild(tp, x, c) ==> c !in open
  }

  /** The state of the post-order walk: blocks in `unmet` are not yet entered, those in
      `open` not yet left. */
  ghost predicate Sizing(tp: Parents, root: BlockId, chain: Chains, sz: map<BlockId, int>, stack: seq<Step>,
                         unmet: set<BlockId>, open: set<BlockId>) {
    && unmet <= open <= chain.Keys && sz.Keys <= chain.Keys
    && (forall i {:trigger StepOk(tp, chain, stack, unmet, open, i)} ::
          0 <= i < |stack| ==> StepOk(tp, chain, stack, unmet, open, i))
    && (forall i, j {:trigger stack[i], stack[j]} :: 0 <= i < j < |stack| ==> stack[i].id != stack[j].id)
    && (forall y {:trigger ParentEntered(tp, stack, unmet, y)} :: ParentEntered(tp, stack, unmet, y))
    && (forall x {:trigger SizedBelow(tp, chain, sz, open, x)} ::
          x in chain && x !in open ==> SizedBelow(tp, chain, sz, open, x))
    && Awaited(stack, 0, open, root)
  }

  /** Post-order subtree sizes: each block counts itself and everything below it. */
  method SubtreeSizes(root: BlockId, treeChildren: Listing, ghost tp: Parents, ghost chain: Chains)
    returns (sizes: map<BlockId, int>)
    requires IsTree(tp, root, chain) && treeChildren.Keys == chain.Keys
    requires forall x {:trigger ChildrenListed(tp, treeChildren, x)} ::
               x in chain ==> ChildrenListed(tp, treeChildren, x)
    ensures sizes.Keys == chain.Keys
    ensures forall x {:trigger Sized(chain, sizes, x)} :: x in chain ==> Sized(chain, sizes, x)
  {
    hide *;
    sizes := map[];
    var stack := [Enter(root)];
    ghost var unmet, open := chain.Keys, chain.Keys;
    SizingStarts(tp, root, chain);
    while stack != []
      invariant Sizing(tp, root, chain, sizes, stack, unmet, open)
      decreases unmet, open
    {
      var top := stack[|stack| - 1];
      TopStep(tp, root, chain, sizes, stack, unmet, open);
      assert stack == stack[..|stack| - 1] + [top];
      stack := stack[..|stack| - 1];
      match top
      case Enter(id) =>
        assert ChildrenListed(tp, treeChildren, id);
        EnterStep(tp, root, chain, sizes, stack, unmet, open, id, treeChildren);
        sizes := sizes[id := 1];
        stack := stack + [Exit(id)] + EnterAll(treeChildren[id]);
        unmet := unmet - {id};
      case Exit(id) =>
        assert ChildrenListed(tp, treeChildren, id);
        ExitStep(tp, root, chain, sizes, stack, unmet, open, id, treeChildren);
        var childTotal := SumSizes(treeChildren[id], sizes);
        sizes := sizes[id := 1 + childTotal];
        open := open - {id};
    }
    SizingEnds(tp, root, chain, sizes, unmet, open);
  }

  function EnterAll(s: seq<BlockId>): (r: seq<Step>)
    ensures |r| == |s| && forall i {:trigger r[i]} :: 0 <= i < |s| ==> r[i] == Enter(s[i])
  {
    seq(|s|, i requires 0 <= i < |s| => Enter(s[i]))
  }

  lemma SizingStarts(tp: Parents, root: BlockId, chain: Chains)
    requires IsTree(tp, root, chain)
    ensures Sizing(tp, root, chain, map[], [Enter(root)], chain.Keys, chain.Keys)
  {
    var stack := [Enter(root)];
    assert stack[0].id == root;
    assert OnStack(stack, 0, root);
    forall y ensures ParentEntered(tp, stack, chain.Keys, y) {
      assert y in tp ==> Linked(tp, chain, y);
    }
  }

  lemma TopStep(tp: Parents, root: BlockId, chain: Chains, sz: map<BlockId, int>, stack: seq<Step>, unmet: set<BlockId>,
                open: set<BlockId>)
    requires Sizing(tp, root, chain, sz, stack, unmet, open) && stack != []
    ensures var top := stack[|stack| - 1];
            top.id in chain && top.id in open && (top.Enter? <==> top.id in unmet)
  {
    assert StepOk(tp, chain, stack, unmet, open, |stack| - 1);
  }

  ghost predicate Entering(tp: Parents, chain: Chains, rest: seq<Step>, unmet: set<BlockId>, open: set<BlockId>,
                           id: BlockId, kids: seq<BlockId>) {
    && id in unmet && id in open && id in chain
    && (forall i {:trigger rest[i]} :: 0 <= i < |rest| ==> rest[i].id != id)
    && (forall k {:trigger kids[k]} :: 0 <= k < |kids| ==>
          && IsChild(tp, id, kids[k]) && kids[k] in chain && kids[k] in unmet && kids[k] != id
          && !OnStack(rest, 0, kids[k]))
    && (forall c :: IsChild(tp, id, c) ==> c in kids)
    && (forall j, k {:trigger kids[j], kids[k]} :: 0 <= j < k < |kids| ==> kids[j] != kids[k])
  }

  /** The children of a block about to be entered are all still untouched. */
  lemma ChildrenUntouched(tp: Parents, root: BlockId, chain: Chains, sz: map<BlockId, int>, rest: seq<Step>,
                          unmet: set<BlockId>, open: set<BlockId>, id: BlockId, ch: Listing)
    requires IsTree(tp, root, chain) && ChildrenListed(tp, ch, id)
    requires Sizing(tp, root, chain, sz, rest + [Enter(id)], unmet, open)
    ensures Entering(tp, chain, rest, unmet, open, id, ch[id])
  {
    var stack, kids := rest + [Enter(id)], ch[id];
    assert stack[|rest|].id == id;
    assert StepOk(tp, chain, stack, unmet, open, |rest|);
    forall i {:trigger rest[i]} | 0 <= i < |rest| ensures rest[i].id != id {
      assert stack[i] == rest[i];
    }
    forall k {:trigger kids[k]} | 0 <= k < |kids|
      ensures && IsChild(tp, id, kids[k]) && kids[k] in chain && kids[k] in unmet && kids[k] != id
              && !OnStack(rest, 0, kids[k])
    {
      var c := kids[k];
      assert c in kids;
      assert Linked(tp, chain, c);
      assert ParentEntered(tp, stack, unmet, c);
      assert OnStack(stack, 0, id);
      StackGrows(rest, Enter(id), 0, c);
    }
  }

  lemma StackAfterEnter(rest: seq<Step>, id: BlockId, kids: seq<BlockId>, from: int, x: BlockId)
    requires from >= 0
    ensures OnStack(rest + [Enter(id)], from, x) ==> OnStack(rest + [Exit(id)] + EnterAll(kids), from, x)
    ensures OnStack(rest + [Exit(id)] + EnterAll(kids), from, x) ==> OnStack(rest + [Enter(id)], from, x) || x in kids
    ensures x in kids && from <= |rest| + 1 ==> OnStack(rest + [Exit(id)] + EnterAll(kids), from, x)
  {
    var old0, new0 := rest + [Enter(id)], rest + [Exit(id)] + EnterAll(kids);
    if OnStack(old0, from, x) {
      var i :| 0 <= i < |old0| && i >= from && old0[i].id == x;
      assert new0[i].id == x;
    }
    if OnStack(new0, from, x) {
      var i :| 0 <= i < |new0| && i >= from && new0[i].id == x;
      if i <= |rest| {
        assert old0[i].id == x;
      } else {
        assert new0[i] == EnterAll(kids)[i - |rest| - 1];
        assert x == kids[i - |rest| - 1];
      }
    }
    if x in kids && from <= |rest| + 1 {
      var k :| 0 <= k < |kids| && kids[k] == x;
      assert new0[|rest| + 1 + k] == EnterAll(kids)[k];
      assert new0[|rest| + 1 + k].id == x;
    }
  }

  /** Entering a block leaves it waiting below its children. */
  lemma EnterStep(tp: Parents, root: BlockId, chain: Chains, sz: map<BlockId, int>, rest: seq<Step>,
                  unmet: set<BlockId>, open: set<BlockId>, id: BlockId, ch: Listing)
    requires IsTree(tp, root, chain) && ChildrenListed(tp, ch, id)
    requires Sizing(tp, root, chain, sz, rest + [Enter(id)], unmet, open)
    ensures id in ch && id in unmet
    ensures Sizing(tp, root, chain, sz[id := 1], rest + [Exit(id)] + EnterAll(ch[id]), unmet - {id}, open)
  {
    ChildrenUntouched(tp, root, chain, sz, rest, unmet, open, id, ch);
    var kids := ch[id];
    var old0, new0 := rest + [Enter(id)], rest + [Exit(id)] + EnterAll(kids);
    hide IsTree, ChildrenListed, OnStack, Sized;
    forall i | 0 <= i < |new0| ensures StepOk(tp, chain, new0, unmet - {id}, open, i) {
      StepAfterEnter(tp, root, chain, sz, rest, unmet, open, id, kids, i);
    }
    forall i, j {:trigger new0[i], new0[j]} | 0 <= i < j < |new0| ensures new0[i].id != new0[j].id {
      EnterKeepsDistinct(tp, root, chain, sz, rest, unmet, open, id, kids, i, j);
    }
    forall y ensures ParentEntered(tp, new0, unmet - {id}, y) {
      assert ParentEntered(tp, old0, unmet, y);
      StackAfterEnter(rest, id, kids, 0, y);
      TopOnStack(rest, Enter(id));
      assert y in kids ==> IsChild(tp, id, y);
    }
    forall x | x in chain && x !in open ensures SizedBelow(tp, chain, sz[id := 1], open, x) {
      assert SizedBelow(tp, chain, sz, open, x);
      SizedFrame(chain, sz, id, 1, x);
    }
    StackAfterEnter(rest, id, kids, 0, root);
    assert Awaited(old0, 0, open, root);
    assert Awaited(new0, 0, open, root);
    assert sz[id := 1].Keys == sz.Keys + {id};
  }

  lemma TopOnStack(rest: seq<Step>, top: Step)
    ensures OnStack(rest + [top], 0, top.id)
  {
    assert (rest + [top])[|rest|].id == top.id;
  }

  lemma SizedFrame(chain: Chains, sz: map<BlockId, int>, id: BlockId, v: int, x: BlockId)
    requires Sized(chain, sz, x) && x != id
    ensures Sized(chain, sz[id := v], x)
  {
  }

  lemma StepAfterEnter(tp: Parents, root: BlockId, chain: Chains, sz: map<BlockId, int>, rest: seq<Step>,
                       unmet: set<BlockId>, open: set<BlockId>, id: BlockId, kids: seq<BlockId>, i: int)
    requires Sizing(tp, root, chain, sz, rest + [Enter(id)], unmet, open)
    requires Entering(tp, chain, rest, unmet, open, id, kids) && 0 <= i < |rest| + 1 + |kids|
    ensures StepOk(tp, chain, rest + [Exit(id)] + EnterAll(kids), unmet - {id}, open, i)
  {
    var old0, new0 := rest + [Enter(id)], rest + [Exit(id)] + EnterAll(kids);
    hide OnStack;
    if i < |rest| {
      assert new0[i] == rest[i] == old0[i];
      assert StepOk(tp, chain, old0, unmet, open, i);
      forall c | IsChild(tp, new0[i].id, c) && new0[i].Exit? ensures Awaited(new0, i + 1, open, c) {
        assert Awaited(old0, i + 1, open, c);
        StackAfterEnter(rest, id, kids, i + 1, c);
      }
    } else if i == |rest| {
      forall c | IsChild(tp, id, c) ensures Awaited(new0, i + 1, open, c) {
        StackAfterEnter(rest, id, kids, i + 1, c);
      }
    } else {
      var k := i - |rest| - 1;
      assert new0[i] == EnterAll(kids)[k] == Enter(kids[k]);
    }
  }

  lemma EnterKeepsDistinct(tp: Parents, root: BlockId, chain: Chains, sz: map<BlockId, int>, rest: seq<Step>,
                           unmet: set<BlockId>, open: set<BlockId>, id: BlockId, kids: seq<BlockId>, i: int, j: int)
    requires Sizing(tp, root, chain, sz, rest + [Enter(id)], unmet, open)
    requires Entering(tp, chain, rest, unmet, open, id, kids) && 0 <= i < j < |rest| + 1 + |kids|
    ensures var new0 := rest + [Exit(id)] + EnterAll(kids);
            new0[i].id != new0[j].id
  {
    var old0, new0 := rest + [Enter(id)], rest + [Exit(id)] + EnterAll(kids);
    if j <= |rest| {
      assert new0[i].id == old0[i].id && new0[j].id == old0[j].id;
    } else {
      var k := j - |rest| - 1;
      assert new0[j] == EnterAll(kids)[k] == Enter(kids[k]);
      if i < |rest| {
        assert new0[i] == rest[i];
        assert !OnStack(rest, 0, kids[k]);
      } else if i > |rest| {
        assert new0[i] == EnterAll(kids)[i - |rest| - 1] == Enter(kids[i - |rest| - 1]);
      }
    }
  }

  /** Leaving a block: its children are all finished, so its own size is final. */
  lemma ExitStep(tp: Parents, root: BlockId, chain: Chains, sz: map<BlockId, int>, rest: seq<Step>, unmet: set<BlockId>,
                 open: set<BlockId>, id: BlockId, ch: Listing)
    requires IsTree(tp, root, chain) && ChildrenListed(tp, ch, id)
    requires Sizing(tp, root, chain, sz, rest + [Exit(id)], unmet, open)
    ensures id in ch && id in open
    ensures Sizing(tp, root, chain, sz[id := 1 + SumSizes(ch[id], sz)], rest, unmet, open - {id})
  {
    var stack := rest + [Exit(id)];
    var sz', open' := sz[id := 1 + SumSizes(ch[id], sz)], open - {id};
    assert stack[|rest|] == Exit(id);
    assert StepOk(tp, chain, stack, unmet, open, |rest|);
    forall c | IsChild(tp, id, c) ensures c !in open && Sized(chain, sz, c) {
      assert Awaited(stack, |rest| + 1, open, c);
      assert Linked(tp, chain, c);
      assert SizedBelow(tp, chain, sz, open, c);
    }
    ExitSized(tp, root, chain, sz, id, ch);
    hide IsTree, ChildrenListed, OnStack, Sized;
    forall i | 0 <= i < |rest| ensures StepOk(tp, chain, rest, unmet, open', i) {
      assert stack[i] == rest[i];
      assert StepOk(tp, chain, stack, unmet, open, i);
      forall c | IsChild(tp, rest[i].id, c) && rest[i].Exit? ensures Awaited(rest, i + 1, open', c) {
        assert Awaited(stack, i + 1, open, c);
        StackGrows(rest, Exit(id), i + 1, c);
      }
    }
    forall i, j {:trigger rest[i], rest[j]} | 0 <= i < j < |rest| ensures rest[i].id != rest[j].id {
      assert stack[i] == rest[i] && stack[j] == rest[j];
    }
    forall y ensures ParentEntered(tp, rest, unmet, y) {
      assert ParentEntered(tp, stack, unmet, y);
      StackGrows(rest, Exit(id), 0, y);
    }
    forall x | x in chain && x !in open' ensures SizedBelow(tp, chain, sz', open', x) {
      if x != id {
        assert SizedBelow(tp, chain, sz, open, x);
        SizedFrame(chain, sz, id, 1 + SumSizes(ch[id], sz), x);
      }
    }
    StackGrows(rest, Exit(id), 0, root);
    assert Awaited(stack, 0, open, root);
    assert Awaited(rest, 0, open', root);
    assert sz'.Keys == sz.Keys + {id};
  }

  lemma StackGrows(rest: seq<Step>, top: Step, from: int, x: BlockId)
    ensures OnStack(rest, from, x) ==> OnStack(rest + [top], from, x)
    ensures OnStack(rest + [top], from, x) ==> OnStack(rest, from, x) || x == top.id
  {
    var stack := rest + [top];
    if OnStack(stack, from, x) {
      var i :| 0 <= i < |stack| && i >= from && stack[i].id == x;
      assert i < |rest| ==> rest[i].id == x;
    }
    if OnStack(rest, from, x) {
      var i :| 0 <= i < |rest| && i >= from && rest[i].id == x;
      assert stack[i].id == x;
    }
  }

  lemma ExitSized(tp: Parents, root: BlockId, chain: Chains, sz: map<BlockId, int>, id: BlockId, ch: Listing)
    requires IsTree(tp, root, chain) && id in chain && ChildrenListed(tp, ch, id)
    requires forall c :: IsChild(tp, id, c) ==> Sized(chain, sz, c)
    ensures Sized(chain, sz[id := 1 + SumSizes(ch[id], sz)], id)
  {
    forall i {:trigger ch[id][i]} | 0 <= i < |ch[id]|
      ensures IsChild(tp, id, ch[id][i]) && Sized(chain, sz, ch[id][i])
    {
      assert ch[id][i] in ch[id];
    }
    SizesBelow(tp, root, chain, sz, id, ch[id]);
    SubtreeSplits(tp, root, chain, ch, id);
  }

  lemma {:induction false} AllClosed(tp: Parents, root: BlockId, chain: Chains, sz: map<BlockId, int>,
                                     unmet: set<BlockId>, open: set<BlockId>, y: BlockId)
    requires IsTree(tp, root, chain) && Sizing(tp, root, chain, sz, [], unmet, open) && y in chain
    ensures y !in open
    decreases |chain[y]|
  {
    if y == root {
      assert Awaited([], 0, open, root);
    } else {
      assert Linked(tp, chain, y);
      AllClosed(tp, root, chain, sz, unmet, open, tp[y]);
      assert SizedBelow(tp, chain, sz, open, tp[y]);
      assert IsChild(tp, tp[y], y);
    }
  }

  lemma SizingEnds(tp: Parents, root: BlockId, chain: Chains, sz: map<BlockId, int>, unmet: set<BlockId>,
                   open: set<BlockId>)
    requires IsTree(tp, root, chain) && Sizing(tp, root, chain, sz, [], unmet, open)
    ensures sz.Keys == chain.Keys
    ensures forall x {:trigger Sized(chain, sz, x)} :: x in chain ==> Sized(chain, sz, x)
  {
    forall x | x in chain ensures Sized(chain, sz, x) {
      AllClosed(tp, root, chain, sz, unmet, open, x);
      assert SizedBelow(tp, chain, sz, open, x);
    }
    forall x | x in chain ensures x in sz {
      assert Sized(chain, sz, x);
    }
  }

  // ------------------------------------------------------------------
  // Futures

  /** `dc` lists the DAG children of `p`, and perhaps `p` itself. */
  ghost predicate DagChildren(g: Graph, dc: Listing, p: BlockId) {
    p in g ==>
      && (forall c :: c in g && p in g[c] ==> p in dc && c in dc[p])
      && (p in dc ==> forall c :: c in dc[p] ==> c == p || (c in g && p in g[c]))
  }

  ghost function Future(g: Graph, a: BlockId): set<BlockId> {
    set c | c in g && a in Past(g, c)
  }

  ghost predicate Forward(g: Graph, a: BlockId, future: set<BlockId>, queue: seq<BlockId>, x: BlockId, c: BlockId) {
    (x == a || x in future) && x !in queue && c in g && x in g[c] ==> c in future
  }

  /** A forward walk from `a`: everything found is in its future, and the children of
      every block that is off the queue have been found. */
  ghost predicate Spreading(g: Graph, a: BlockId, future: set<BlockId>, queue: seq<BlockId>) {
    && a in g && future <= Future(g, a) + {a}
    && (forall x :: x in queue ==> x == a || x in future)
    && (forall x, c {:trigger Forward(g, a, future, queue, x, c)} :: Forward(g, a, future, queue, x, c))
  }

  /** Everything reachable from `a` over child edges. */
  method FutureOf(ghost g: Graph, a: BlockId, dagChildren: Listing) returns (future: set<BlockId>)
    requires WellFormed(g) && a in g
    requires forall p {:trigger DagChildren(g, dagChildren, p)} :: DagChildren(g, dagChildren, p)
    ensures Future(g, a) <= future <= Future(g, a) + {a}
  {
    hide *;
    future := {};
    var queue := [a];
    ghost var unfound := Future(g, a) + {a};
    SpreadStarts(g, a);
    while queue != []
      invariant Spreading(g, a, future, queue) && unfound == Future(g, a) + {a} - future
      decreases unfound, |queue|
    {
      var cur := queue[0];
      var children := if cur in dagChildren then dagChildren[cur] else [];
      ghost var future0, queue0 := future, queue;
      future, queue := Spread(children, future, queue[1..]);
      SpreadStep(g, a, future0, queue0, dagChildren, children, future, queue);
      unfound := Future(g, a) + {a} - future;
    }
    SpreadEnds(g, a, future);
  }

  /** Add the blocks not yet found to the future and to the queue. */
  method Spread(children: seq<BlockId>, future0: set<BlockId>, queue0: seq<BlockId>)
    returns (future: set<BlockId>, queue: seq<BlockId>)
    ensures future == future0 + Elements(children)
    ensures forall x :: x in queue <==> x in queue0 || (x in future && x !in future0)
    ensures future == future0 ==> queue == queue0
  {
    future, queue := future0, queue0;
    for i := 0 to |children|
      invariant future == future0 + Elements(children[..i])
      invariant forall x :: x in queue <==> x in queue0 || (x in future && x !in future0)
      invariant future == future0 ==> queue == queue0
    {
      var child := children[i];
      assert children[..i + 1] == children[..i] + [child];
      Snoc(children[..i], child);
      if child !in future {
        future := future + {child};
        queue := queue + [child];
        assert child in future && child !in future0;
      }
    }
    assert children[..|children|] == children;
  }

  lemma SpreadStarts(g: Graph, a: BlockId)
    requires a in g
    ensures Spreading(g, a, {}, [a])
    ensures Future(g, a) + {a} - {} == Future(g, a) + {a}
  {
  }

  lemma SpreadStep(g: Graph, a: BlockId, future: set<BlockId>, queue: seq<BlockId>, dc: Listing, children: seq<BlockId>,
                   future': set<BlockId>, queue': seq<BlockId>)
    requires WellFormed(g) && Spreading(g, a, future, queue) && queue != []
    requires forall p {:trigger DagChildren(g, dc, p)} :: DagChildren(g, dc, p)
    requires children == if queue[0] in dc then dc[queue[0]] else []
    requires future' == future + Elements(children)
    requires forall x :: x in queue' <==> x in queue[1..] || (x in future' && x !in future)
    ensures Spreading(g, a, future', queue')
    ensures Future(g, a) + {a} - future' <= Future(g, a) + {a} - future
    ensures future' != future ==> Future(g, a) + {a} - future' < Future(g, a) + {a} - future
  {
    var cur := queue[0];
    assert cur == a || cur in future;
    assert DagChildren(g, dc, cur);
    forall c | c in children ensures c in Future(g, a) + {a} {
      if c != cur {
        ParentIsAnc(g, c, cur);
        if cur != a {
          AncTransitive(g, a, cur, c);
        }
      }
    }
    hide Past, Future;
    assert forall x :: x in queue <==> x == cur || x in queue[1..];
    forall x, c ensures Forward(g, a, future', queue', x, c) {
      assert Forward(g, a, future, queue, x, c);
    }
    if future' != future {
      var c :| c in future' && c !in future;
      assert c in Future(g, a) + {a};
    }
  }

  lemma {:induction false} Spreads(g: Graph, a: BlockId, future: set<BlockId>, c: BlockId)
    requires WellFormed(g) && Spreading(g, a, future, []) && c in Future(g, a)
    ensures c in future
    decreases |Past(g, c)|
  {
    AncUnfold(g, a, c);
    var q :| q in g[c] && (a == q || Anc(g, a, q));
    ParentIsAnc(g, c, q);
    if q != a {
      PastShrinks(g, q, c);
      Spreads(g, a, future, q);
    }
    assert Forward(g, a, future, [], q, c);
  }

  lemma SpreadEnds(g: Graph, a: BlockId, future: set<BlockId>)
    requires WellFormed(g) && Spreading(g, a, future, [])
    ensures Future(g, a) <= future <= Future(g, a) + {a}
  {
    forall c | c in Future(g, a) ensures c in future {
      Spreads(g, a, future, c);
    }
  }

  // ------------------------------------------------------------------
  // Covering sets

  /** `c` tops the part of the future lying outside the subtree: its tree parent is in
      the subtree, or not in the future. */
  predicate IsCover(iv: Intervals, tp: Parents, a: BlockId, future: set<BlockId>, c: BlockId) {
    && c in future && !Contains(iv, a, c)
    && (c in tp ==> Contains(iv, a, tp[c]) || tp[c] !in future)
  }

  function InsertByStart(iv: Intervals, s: seq<BlockId>, x: BlockId): (r: seq<BlockId>)
    ensures forall y :: y in r <==> y in s || y == x
  {
    if s == [] || Start(iv, x) < Start(iv, s[0]) then [x] + s
    else
      var r := [s[0]] + InsertByStart(iv, s[1..], x);
      assert forall y :: y in s <==> y == s[0] || y in s[1..];
      r
  }

  function Start(iv: Intervals, x: BlockId): nat {
    if x in iv then iv[x].lo else 0
  }

  /** The covering set of one block, sorted by interval start. */
  method CoversOf(iv: Intervals, tp: Parents, a: BlockId, future: set<BlockId>) returns (covers: seq<BlockId>)
    ensures forall c :: c in covers <==> IsCover(iv, tp, a, future, c)
  {
    covers := [];
    var rest := future;
    while rest != {}
      invariant rest <= future
      invariant forall c :: c in covers <==> c !in rest && IsCover(iv, tp, a, future, c)
      decreases rest
    {
      var c :| c in rest;
      rest := rest - {c};
      if IsCover(iv, tp, a, future, c) {
        covers := InsertByStart(iv, covers, c);
      }
    }
  }

  /** Walking up from a future block outside the subtree reaches a cover. */
  lemma {:induction false} CoverAbove(g: Graph, tp: Parents, root: BlockId, chain: Chains, iv: Intervals, nf: Marks,
                                      a: BlockId, b: BlockId) returns (c: BlockId)
    requires IsTree(tp, root, chain) && Laid(tp, chain, iv, nf) && Embedded(g, tp, chain) && a in g
    requires b in Future(g, a) && !TreeReach(chain, a, b)
    ensures IsCover(iv, tp, a, Future(g, a), c) && TreeReach(chain, c, b)
    decreases |chain[b]|
  {
    ContainsIffReach(tp, root, chain, iv, nf, a, b);
    RootAboveAll(tp, root, chain, b);
    if b in tp {
      assert Linked(tp, chain, b);
      ContainsIffReach(tp, root, chain, iv, nf, a, tp[b]);
      if tp[b] in Future(g, a) && !TreeReach(chain, a, tp[b]) {
        c := CoverAbove(g, tp, root, chain, iv, nf, a, tp[b]);
        RootAboveAll(tp, root, chain, tp[b]);
        return;
      }
    }
    c := b;
  }

  /** The covers and the subtree of a block hold exactly its future. */
  lemma CoversExact(g: Graph, tp: Parents, root: BlockId, chain: Chains, iv: Intervals, nf: Marks, a: BlockId,
                    covers: seq<BlockId>, b: BlockId)
    requires && WellFormed(g) && IsTree(tp, root, chain) && Laid(tp, chain, iv, nf) && Embedded(g, tp, chain) && a in g
             && b in g
    requires forall c :: c in covers <==> IsCover(iv, tp, a, Future(g, a), c)
    ensures a != b ==>
              (a in Past(g, b) <==> TreeReach(chain, a, b) || exists c :: c in covers && TreeReach(chain, c, b))
  {
    if TreeReach(chain, a, b) {
      ReachIsPast(g, tp, root, chain, a, b);
    } else if b in Future(g, a) {
      var c := CoverAbove(g, tp, root, chain, iv, nf, a, b);
      assert c in covers;
    } else if c :| c in covers && TreeReach(chain, c, b) {
      ReachIsPast(g, tp, root, chain, c, b);
      if c != b {
        AncTransitive(g, a, c, b);
      }
    }
  }

  /** The covering set of `a` answers every question about it. */
  ghost predicate AnswersFor(g: Graph, fcs: Covers, chain: Chains, a: BlockId) {
    && MembersPresent(fcs, chain, a)
    && forall b {:trigger Exact(g, fcs, chain, a, b)} :: b in g ==> Exact(g, fcs, chain, a, b)
  }

  /** Covering sets for every block: tree and covers together answer ancestry exactly. */
  method BuildFcs(ids: set<BlockId>, tp: Parents, dagChildren: Listing, iv: Intervals, ghost g: Graph,
                  ghost root: BlockId, ghost chain: Chains, ghost nf: Marks)
    returns (fcs: Covers)
    requires && WellFormed(g) && IsTree(tp, root, chain) && Laid(tp, chain, iv, nf) && Embedded(g, tp, chain)
             && ids == g.Keys
    requires forall p {:trigger DagChildren(g, dagChildren, p)} :: DagChildren(g, dagChildren, p)
    ensures CoversAll(g, fcs, chain)
  {
    hide *;
    fcs := map[];
    var rest := ids;
    while rest != {}
      invariant rest <= ids && fcs.Keys <= g.Keys - rest
      invariant forall a {:trigger AnswersFor(g, fcs, chain, a)} ::
                  a in g && a !in rest ==> AnswersFor(g, fcs, chain, a)
      decreases rest
    {
      var a :| a in rest;
      var future := FutureOf(g, a, dagChildren);
      var covers := CoversOf(iv, tp, a, future);
      ghost var before := fcs;
      if covers != [] {
        fcs := fcs[a := covers];
      }
      NewAnswers(g, tp, root, chain, iv, nf, a, future, covers, before, fcs);
      forall x | x in g && x !in rest - {a} ensures AnswersFor(g, fcs, chain, x) {
        if x != a {
          KeptAnswers(g, chain, before, fcs, x);
        }
      }
      rest := rest - {a};
    }
    AnswersDone(g, fcs, tp, chain);
  }

  lemma NewAnswers(g: Graph, tp: Parents, root: BlockId, chain: Chains, iv: Intervals, nf: Marks, a: BlockId,
                   future: set<BlockId>, covers: seq<BlockId>, before: Covers, fcs: Covers)
    requires WellFormed(g) && IsTree(tp, root, chain) && Laid(tp, chain, iv, nf) && Embedded(g, tp, chain) && a in g
    requires Future(g, a) <= future <= Future(g, a) + {a}
    requires forall c :: c in covers <==> IsCover(iv, tp, a, future, c)
    requires a !in before && fcs == if covers != [] then before[a := covers] else before
    ensures AnswersFor(g, fcs, chain, a)
  {
    assert g.Keys == chain.Keys;
    assert MarkLaid(iv, nf, a);
    assert forall c :: IsCover(iv, tp, a, future, c) <==> IsCover(iv, tp, a, Future(g, a), c);
    forall b | b in g ensures Exact(g, fcs, chain, a, b) {
      CoversExact(g, tp, root, chain, iv, nf, a, covers, b);
      hide Past, TreeReach, IsCover;
      assert Covered(fcs, chain, a, b) <==> TreeReach(chain, a, b) || exists c :: c in covers && TreeReach(chain, c, b);
    }
    assert forall c :: c in covers ==> c in Future(g, a);
  }

  lemma KeptAnswers(g: Graph, chain: Chains, before: Covers, fcs: Covers, x: BlockId)
    requires AnswersFor(g, before, chain, x) && (x in fcs <==> x in before) && (x in fcs ==> fcs[x] == before[x])
    ensures AnswersFor(g, fcs, chain, x)
  {
    forall b | b in g ensures Exact(g, fcs, chain, x, b) {
      assert Exact(g, before, chain, x, b);
    }
  }

  lemma AnswersDone(g: Graph, fcs: Covers, tp: Parents, chain: Chains)
    requires fcs.Keys <= g.Keys && Embedded(g, tp, chain)
    requires forall a {:trigger AnswersFor(g, fcs, chain, a)} :: a in g ==> AnswersFor(g, fcs, chain, a)
    ensures CoversAll(g, fcs, chain)
  {
    forall a ensures MembersPresent(fcs, chain, a) {
      assert a in g ==> AnswersFor(g, fcs, chain, a);
    }
    forall a, b | a in g && b in g ensures Exact(g, fcs, chain, a, b) {
      assert AnswersFor(g, fcs, chain, a);
    }
  }

  // ------------------------------------------------------------------
  // The stored DAG as the oracle sees it

  ghost function ChainsOf(nodes: Nodes): Chains
    requires Lineages(nodes)
  {
    map b | b in nodes :: ChainTo(nodes, b)
  }

  /** Selected parents form a tree over the stored blocks, made of DAG edges. */
  lemma TreeOfNodes(k: nat, genesis: BlockId, nodes: Nodes, tips: set<BlockId>)
    requires Consistent(k, genesis, nodes, tips) && Lineages(nodes)
    ensures IsTree(SelectedParents(nodes), genesis, ChainsOf(nodes))
    ensures Embedded(GraphOf(nodes), SelectedParents(nodes), ChainsOf(nodes))
    ensures forall b :: b in SelectedParents(nodes) ==> SelectedParents(nodes)[b] in nodes
    ensures WellFormed(GraphOf(nodes)) && genesis in nodes
  {
    var tp, chain, g := SelectedParents(nodes), ChainsOf(nodes), GraphOf(nodes);
    forall b | b in nodes ensures b in tp <==> b != genesis {
      assert RootedAt(nodes, genesis, b);
    }
    forall y | y in tp ensures Linked(tp, chain, y) && TreeEdge(g, tp, y) {
      assert Lineage(nodes, y);
      BlueBase(k, genesis, nodes, tips, y);
    }
    assert Lineage(nodes, genesis);
  }

  /** The edges collected are those of the graph, if no stored block is among the
      parents the genesis block happens to list. */
  lemma EdgesAreGraph(k: nat, genesis: BlockId, nodes: Nodes, tips: set<BlockId>, dc: Listing)
    requires Consistent(k, genesis, nodes, tips)
    requires forall p :: p in nodes[genesis].block.parents ==> p == genesis || p !in nodes
    requires forall p {:trigger EdgesListed(nodes, nodes.Keys, dc, p)} :: EdgesListed(nodes, nodes.Keys, dc, p)
    ensures forall p {:trigger DagChildren(GraphOf(nodes), dc, p)} :: DagChildren(GraphOf(nodes), dc, p)
  {
    var g := GraphOf(nodes);
    forall b | b in nodes ensures g[b] == if b == genesis then [] else nodes[b].block.parents {
      assert RootedAt(nodes, genesis, b);
    }
    hide Consistent;
    forall p ensures DagChildren(g, dc, p) {
      assert EdgesListed(nodes, nodes.Keys, dc, p);
    }
  }

  /** Relabelling from the root labels the whole tree. */
  lemma WholeLaid(tp: Parents, root: BlockId, chain: Chains, iv: Intervals, nf: Marks)
    requires IsTree(tp, root, chain) && LaidWithin(tp, chain, iv, nf, root)
    requires iv.Keys <= chain.Keys && nf.Keys <= chain.Keys
    ensures Laid(tp, chain, iv, nf)
  {
    forall x | x in chain ensures TreeReach(chain, root, x) && MarkLaid(iv, nf, x) {
      RootAboveAll(tp, root, chain, x);
    }
    forall c | c in tp ensures tp[c] in chain && ChildLaid(tp, iv, nf, c) {
      assert Linked(tp, chain, c);
    }
    forall c, d | c in tp && d in tp ensures SiblingsLaid(tp, iv, c, d) {
      assert ChildLaid(tp, iv, nf, c) && ChildLaid(tp, iv, nf, d);
    }
  }

  lemma RootSize(root: BlockId, chain: Chains, sz: map<BlockId, int>)
    requires root in chain && Sized(chain, sz, root)
    ensures sz[root] <= |chain|
  {
    SubsetCardinality(Subtree(chain, root), chain.Keys);
    assert |chain.Keys| == |chain|;
  }
}
