/** Ledger states as folds over the block order, stated without any cache. */
module States {
  import opened Types
  import opened Graphs
  import opened Bytes
  import opened Ghostdag
  import opened Consensus
  import opened ChainSelection
  import opened Order
  import opened Payload
  import opened Utxos
  import opened Apply

  /** A payload decodes and its transactions are valid on `u`. */
  ghost predicate Applies(u: Utxo, payload: Bytes, subsidy: u64) {
    TxsOf(payload).Ok? && BlockOutcome(u, TxsOf(payload).value, subsidy).Ok?
  }

  /** The effect of a payload: none at all unless it applies. */
  ghost function ApplyPayload(u: Utxo, payload: Bytes, subsidy: u64): Utxo {
    if Applies(u, payload, subsidy) then BlockOutcome(u, TxsOf(payload).value, subsidy).value.utxo else u
  }

  ghost function PayloadAt(nodes: Nodes, b: BlockId): Bytes {
    if b in nodes then nodes[b].block.payload else []
  }

  /** Blocks applied one after another. */
  ghost function Fold(nodes: Nodes, order: seq<BlockId>, u: Utxo, subsidy: u64): Utxo {
    if order == [] then u
    else ApplyPayload(Fold(nodes, order[..|order| - 1], u, subsidy), PayloadAt(nodes, order[|order| - 1]), subsidy)
  }

  /** The state in a block's own view: its whole order applied from nothing. */
  ghost function ViewOf(nodes: Nodes, b: BlockId, subsidy: u64): Utxo
    requires b in nodes && Lineages(nodes)
  {
    Fold(nodes, OrderOf(nodes, b), map[], subsidy)
  }

  /** The state a block's own transactions are checked against. */
  ghost function PreView(nodes: Nodes, b: BlockId, subsidy: u64): Utxo
    requires b in nodes && Lineages(nodes)
  {
    var order := OrderOf(nodes, b);
    Fold(nodes, order[..|order| - 1], map[], subsidy)
  }

  /** The state a new block on these parents would be checked against. */
  ghost function PreState(nodes: Nodes, ps: seq<BlockId>, sp: BlockId, subsidy: u64): Utxo
    requires sp in nodes && Lineages(nodes)
  {
    Fold(nodes, MergeOrder(nodes, ps, sp), ViewOf(nodes, sp, subsidy), subsidy)
  }

  /** The blocks of an order that apply when their turn comes. */
  ghost function AcceptedIn(nodes: Nodes, order: seq<BlockId>, subsidy: u64): seq<BlockId> {
    if order == [] then []
    else
      var init, b := order[..|order| - 1], order[|order| - 1];
      AcceptedIn(nodes, init, subsidy) +
        (if Applies(Fold(nodes, init, map[], subsidy), PayloadAt(nodes, b), subsidy) then [b] else [])
  }

  lemma {:induction false} FoldAppend(nodes: Nodes, s: seq<BlockId>, t: seq<BlockId>, u: Utxo, subsidy: u64)
    ensures Fold(nodes, s + t, u, subsidy) == Fold(nodes, t, Fold(nodes, s, u, subsidy), subsidy)
    decreases |t|
  {
    hide ApplyPayload, PayloadAt;
    if t == [] {
      assert s + t == s;
    } else {
      assert (s + t)[..|s + t| - 1] == s + t[..|t| - 1];
      FoldAppend(nodes, s, t[..|t| - 1], u, subsidy);
    }
  }

  lemma FoldSnoc(nodes: Nodes, s: seq<BlockId>, b: BlockId, u: Utxo, subsidy: u64)
    ensures Fold(nodes, s + [b], u, subsidy) == ApplyPayload(Fold(nodes, s, u, subsidy), PayloadAt(nodes, b), subsidy)
  {
    assert (s + [b])[..|s + [b]| - 1] == s;
  }

  /** One more block at the end of an order: its transactions all apply and the state is theirs, or
      the state stays as it is. */
  lemma BlockTurn(nodes: Nodes, order: seq<BlockId>, b: BlockId, u: Utxo, subsidy: u64)
    requires b in nodes
    ensures TxsOf(nodes[b].block.payload).Err? ==>
              Fold(nodes, order + [b], u, subsidy) == Fold(nodes, order, u, subsidy)
    ensures TxsOf(nodes[b].block.payload).Ok? ==>
              var outcome := BlockOutcome(Fold(nodes, order, u, subsidy), TxsOf(nodes[b].block.payload).value, subsidy);
              && (outcome.Err? ==> Fold(nodes, order + [b], u, subsidy) == Fold(nodes, order, u, subsidy))
              && (outcome.Ok? ==> Fold(nodes, order + [b], u, subsidy) == outcome.value.utxo)
  {
    hide TxsOf, BlockOutcome;
    FoldSnoc(nodes, order, b, u, subsidy);
  }

  lemma AcceptedSnoc(nodes: Nodes, s: seq<BlockId>, b: BlockId, subsidy: u64)
    ensures AcceptedIn(nodes, s + [b], subsidy) ==
            if Applies(Fold(nodes, s, map[], subsidy), PayloadAt(nodes, b), subsidy)
            then AcceptedIn(nodes, s, subsidy) + [b] else AcceptedIn(nodes, s, subsidy)
  {
    assert (s + [b])[..|s + [b]| - 1] == s;
    hide Applies, Fold, PayloadAt;
  }

  lemma PayloadEffect(u: Utxo, payload: Bytes, subsidy: u64)
    ensures !Applies(u, payload, subsidy) ==> ApplyPayload(u, payload, subsidy) == u
  {
    hide Applies;
  }

  /** The blocks that do not apply leave no trace: the accepted ones alone, in their order, lead to
      the same state, and all of them apply again on the way. */
  lemma {:induction false} RejectedLeaveNoTrace(nodes: Nodes, order: seq<BlockId>, subsidy: u64)
    ensures Fold(nodes, AcceptedIn(nodes, order, subsidy), map[], subsidy) == Fold(nodes, order, map[], subsidy)
    ensures AcceptedIn(nodes, AcceptedIn(nodes, order, subsidy), subsidy) == AcceptedIn(nodes, order, subsidy)
  {
    hide *;
    if order == [] {
      NoneAccepted(nodes, subsidy);
    } else {
      var init, b := order[..|order| - 1], order[|order| - 1];
      assert order == init + [b];
      RejectedLeaveNoTrace(nodes, init, subsidy);
      FoldSnoc(nodes, init, b, map[], subsidy);
      FoldSnoc(nodes, AcceptedIn(nodes, init, subsidy), b, map[], subsidy);
      AcceptedSnoc(nodes, init, b, subsidy);
      AcceptedSnoc(nodes, AcceptedIn(nodes, init, subsidy), b, subsidy);
      PayloadEffect(Fold(nodes, init, map[], subsidy), PayloadAt(nodes, b), subsidy);
    }
  }

  lemma NoneAccepted(nodes: Nodes, subsidy: u64)
    ensures AcceptedIn(nodes, [], subsidy) == []
  {
  }

  /** A block's order ends with the block. */
  lemma OrderEnds(nodes: Nodes, b: BlockId)
    requires b in nodes && Lineages(nodes)
    ensures var o := OrderOf(nodes, b);
            && o != [] && o[|o| - 1] == b
            && o[..|o| - 1] == match nodes[b].ghostdag.selectedParent
                               case None => []
                               case Some(sp) => if sp in nodes then OrderOf(nodes, sp) + MergesetOf(nodes, b) else []
    ensures nodes[b].ghostdag.selectedParent.Some? ==> nodes[b].ghostdag.selectedParent.value in nodes
  {
    assert Lineage(nodes, b);
  }

  /** A view is the selected parent's view, then the mergeset, then the block itself. */
  lemma ViewSteps(nodes: Nodes, b: BlockId, subsidy: u64)
    requires b in nodes && Lineages(nodes)
    ensures ViewOf(nodes, b, subsidy) == ApplyPayload(PreView(nodes, b, subsidy), nodes[b].block.payload, subsidy)
    ensures nodes[b].ghostdag.selectedParent.None? ==> PreView(nodes, b, subsidy) == map[]
    ensures nodes[b].ghostdag.selectedParent.Some? ==>
              var sp := nodes[b].ghostdag.selectedParent.value;
              sp in nodes && PreView(nodes, b, subsidy) == PreState(nodes, nodes[b].block.parents, sp, subsidy)
  {
    hide OrderOf, ApplyPayload;
    OrderEnds(nodes, b);
    if nodes[b].ghostdag.selectedParent.Some? {
      var sp := nodes[b].ghostdag.selectedParent.value;
      FoldAppend(nodes, OrderOf(nodes, sp), MergesetOf(nodes, b), map[], subsidy);
    }
  }

  // ------------------------------------------------------------------
  // States depend only on the past

  lemma {:induction false} SameFold(nodes: Nodes, nodes': Nodes, order: seq<BlockId>, u: Utxo, subsidy: u64)
    requires forall b :: b in order ==> b in nodes && b in nodes' && nodes'[b].block == nodes[b].block
    ensures Fold(nodes', order, u, subsidy) == Fold(nodes, order, u, subsidy)
  {
    if order != [] {
      var init := order[..|order| - 1];
      assert forall b :: b in init ==> b in order;
      SameFold(nodes, nodes', init, u, subsidy);
      assert order[|order| - 1] in order;
    }
  }

  /** Merge orders only look at the past they merge. */
  lemma SameMergeOrder(nodes: Nodes, nodes': Nodes, of: set<BlockId>, ps: seq<BlockId>, sp: BlockId)
    requires Agree(nodes, nodes', of) && PastClosed(nodes, of) && sp in of && forall p :: p in ps ==> p in of
    ensures MergeOrder(nodes', ps, sp) == MergeOrder(nodes, ps, sp)
    ensures forall b :: b in MergeOrder(nodes, ps, sp) ==> b in of
  {
    AgreePasts(nodes, nodes', of);
    AgreeMergeSet(nodes, nodes', of, ps, sp);
    AgreeOrder(nodes, nodes', of, MergeSet(GraphOf(nodes), ps, sp));
    MergeOrderFacts(nodes, ps, sp);
  }

  /** Two DAGs that agree on a past-closed set of blocks agree on their orders. */
  lemma {:induction false} SameOrder(k: nat, genesis: BlockId, nodes: Nodes, tips: set<BlockId>, nodes': Nodes,
                                     of: set<BlockId>, b: BlockId)
    requires Consistent(k, genesis, nodes, tips) && Lineages(nodes) && Lineages(nodes')
    requires Agree(nodes, nodes', of) && PastClosed(nodes, of) && b in of && b in nodes && b in nodes'
    ensures OrderOf(nodes', b) == OrderOf(nodes, b)
    ensures forall x :: x in OrderOf(nodes, b) ==> x in of
    decreases |Past(GraphOf(nodes), b)|
  {
    assert AgreeAt(nodes, nodes', b);
    assert Lineage(nodes, b) && Lineage(nodes', b);
    if b != genesis {
      BlueBase(k, genesis, nodes, tips, b);
      var sp, ps := nodes[b].ghostdag.selectedParent.value, nodes[b].block.parents;
      PastShrinks(GraphOf(nodes), sp, b);
      ParentsInside(nodes, of, b, ps);
      hide Consistent, Agree, PastClosed, Lineages;
      SameOrder(k, genesis, nodes, tips, nodes', of, sp);
      SameMergeOrder(nodes, nodes', of, ps, sp);
    } else {
      assert RootedAt(nodes, genesis, b);
    }
  }

  lemma ParentsInside(nodes: Nodes, of: set<BlockId>, b: BlockId, ps: seq<BlockId>)
    requires PastClosed(nodes, of) && b in of && b in nodes && GraphOf(nodes)[b] == ps && Closed(GraphOf(nodes))
    ensures forall p :: p in ps ==> p in of
  {
    assert Past(GraphOf(nodes), b) <= of;
    forall p | p in ps ensures p in of {
      ParentIsAnc(GraphOf(nodes), b, p);
    }
  }

  /** A block's view is the same wherever its past is. */
  lemma SameView(k: nat, genesis: BlockId, nodes: Nodes, tips: set<BlockId>, nodes': Nodes, of: set<BlockId>,
                 b: BlockId, subsidy: u64)
    requires Consistent(k, genesis, nodes, tips) && Lineages(nodes) && Lineages(nodes')
    requires Agree(nodes, nodes', of) && PastClosed(nodes, of) && b in of && b in nodes && b in nodes'
    ensures ViewOf(nodes', b, subsidy) == ViewOf(nodes, b, subsidy)
    ensures PreView(nodes', b, subsidy) == PreView(nodes, b, subsidy)
  {
    SameOrder(k, genesis, nodes, tips, nodes', of, b);
    var order := OrderOf(nodes, b);
    OrderEnds(nodes, b);
    hide OrderOf, Consistent, PastClosed, Lineages;
    forall x | x in order ensures x in nodes && x in nodes' && nodes'[x].block == nodes[x].block {
      assert AgreeAt(nodes, nodes', x);
    }
    SameFold(nodes, nodes', order, map[], subsidy);
    var init := order[..|order| - 1];
    assert forall x :: x in init ==> x in order;
    SameFold(nodes, nodes', init, map[], subsidy);
  }

  /** The state a new block is checked against, likewise. */
  lemma SamePreState(k: nat, genesis: BlockId, nodes: Nodes, tips: set<BlockId>, nodes': Nodes, of: set<BlockId>,
                     ps: seq<BlockId>, sp: BlockId, subsidy: u64)
    requires Consistent(k, genesis, nodes, tips) && Lineages(nodes) && Lineages(nodes')
    requires Agree(nodes, nodes', of) && PastClosed(nodes, of) && sp in of && (forall p :: p in ps ==> p in of)
    requires sp in nodes && sp in nodes'
    ensures PreState(nodes', ps, sp, subsidy) == PreState(nodes, ps, sp, subsidy)
  {
    SameView(k, genesis, nodes, tips, nodes', of, sp, subsidy);
    SameMergeOrder(nodes, nodes', of, ps, sp);
    var m := MergeOrder(nodes, ps, sp);
    hide Consistent, PastClosed, Lineages;
    forall x | x in m ensures x in nodes && x in nodes' && nodes'[x].block == nodes[x].block {
      assert AgreeAt(nodes, nodes', x);
    }
    SameFold(nodes, nodes', m, ViewOf(nodes, sp, subsidy), subsidy);
  }

  // ------------------------------------------------------------------
  // Runs over an order

  lemma {:induction false} SupplyBound(nodes: Nodes, order: seq<BlockId>, subsidy: u64)
    ensures Total(Fold(nodes, order, map[], subsidy)) <= |AcceptedIn(nodes, order, subsidy)| * subsidy
  {
    hide Total, Applies, PayloadAt, ApplyPayload;
    if order == [] {
      TotalEmpty();
    } else {
      var init, b := order[..|order| - 1], order[|order| - 1];
      SupplyBound(nodes, init, subsidy);
      PayloadSupply(Fold(nodes, init, map[], subsidy), PayloadAt(nodes, b), subsidy);
      var n := |AcceptedIn(nodes, init, subsidy)|;
      assert (n + 1) * subsidy == n * subsidy + subsidy;
    }
  }

  /** One payload raises the supply by at most the subsidy, and only if it applies. */
  lemma PayloadSupply(u: Utxo, payload: Bytes, subsidy: u64)
    ensures Total(ApplyPayload(u, payload, subsidy)) <= Total(u) + if Applies(u, payload, subsidy) then subsidy else 0
  {
    hide Total, BlockOutcome;
    if Applies(u, payload, subsidy) {
      BlockConserves(u, TxsOf(payload).value, subsidy);
    }
  }

  lemma {:induction false} AcceptedGrows(nodes: Nodes, s: seq<BlockId>, t: seq<BlockId>, subsidy: u64)
    ensures AcceptedIn(nodes, s, subsidy) <= AcceptedIn(nodes, s + t, subsidy)
    decreases |t|
  {
    if t == [] {
      assert s + t == s;
    } else {
      assert (s + t)[..|s + t| - 1] == s + t[..|t| - 1];
      AcceptedGrows(nodes, s, t[..|t| - 1], subsidy);
    }
  }

  /** The block's own transactions are valid in its own view. */
  ghost predicate ValidInView(nodes: Nodes, b: BlockId, subsidy: u64)
    requires Lineages(nodes)
  {
    b in nodes && Applies(PreView(nodes, b, subsidy), nodes[b].block.payload, subsidy)
  }

  ghost predicate AllValidInView(nodes: Nodes, subsidy: u64)
    requires Lineages(nodes)
  {
    forall b {:trigger ValidInView(nodes, b, subsidy)} :: b in nodes ==> ValidInView(nodes, b, subsidy)
  }

  /** Below its own block a selected chain is the chain of the selected parent. */
  lemma ChainGoesOn(nodes: Nodes, b: BlockId, c: BlockId) returns (sp: BlockId)
    requires Lineages(nodes) && b in nodes && c in ChainTo(nodes, b) && c != b
    ensures sp in nodes && c in ChainTo(nodes, sp) && |Past(GraphOf(nodes), sp)| < |Past(GraphOf(nodes), b)|
    ensures OrderOf(nodes, b) == OrderOf(nodes, sp) + (MergesetOf(nodes, b) + [b])
  {
    assert Lineage(nodes, b);
    sp := nodes[b].ghostdag.selectedParent.value;
    assert OrderOf(nodes, sp) + MergesetOf(nodes, b) + [b] == OrderOf(nodes, sp) + (MergesetOf(nodes, b) + [b]);
  }

  lemma {:induction false} ChainOrderPrefix(nodes: Nodes, b: BlockId, c: BlockId) returns (rest: seq<BlockId>)
    requires Lineages(nodes) && b in nodes && c in ChainTo(nodes, b)
    ensures c in nodes && OrderOf(nodes, b) == OrderOf(nodes, c) + rest
    decreases |Past(GraphOf(nodes), b)|
  {
    hide *;
    if c == b {
      rest := [];
    } else {
      var sp := ChainGoesOn(nodes, b, c);
      var inner := ChainOrderPrefix(nodes, sp, c);
      rest := inner + (MergesetOf(nodes, b) + [b]);
      assert OrderOf(nodes, c) + inner + (MergesetOf(nodes, b) + [b]) == OrderOf(nodes, c) + rest;
    }
  }

  /** Every selected-chain block is accepted by a run over the whole order. */
  lemma ChainIsAccepted(nodes: Nodes, tip: BlockId, c: BlockId, subsidy: u64)
    requires Lineages(nodes) && tip in nodes && AllValidInView(nodes, subsidy) && c in ChainTo(nodes, tip)
    ensures c in AcceptedIn(nodes, Linearization(nodes, tip), subsidy)
  {
    hide *;
    var rest := ChainOrderPrefix(nodes, tip, c);
    LastIsAccepted(nodes, c, subsidy);
    var tail := LinearTail(nodes, tip);
    assert OrderOf(nodes, c) + rest + tail == OrderOf(nodes, c) + (rest + tail);
    AcceptedGrows(nodes, OrderOf(nodes, c), rest + tail, subsidy);
  }

  lemma LastIsAccepted(nodes: Nodes, c: BlockId, subsidy: u64)
    requires Lineages(nodes) && AllValidInView(nodes, subsidy) && c in nodes
    ensures c in AcceptedIn(nodes, OrderOf(nodes, c), subsidy)
  {
    hide Applies, Fold, OrderOf;
    OrderEnds(nodes, c);
    assert ValidInView(nodes, c, subsidy);
  }

  lemma LinearTail(nodes: Nodes, tip: BlockId) returns (tail: seq<BlockId>)
    requires Lineages(nodes) && tip in nodes
    ensures Linearization(nodes, tip) == OrderOf(nodes, tip) + tail
  {
    tail := TopoOrder(nodes, nodes.Keys - PastEq(GraphOf(nodes), tip));
  }
}
