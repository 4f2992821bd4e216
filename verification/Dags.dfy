/** The append-only block DAG: every insert is validated, coloured and folded into the
    reachability oracle. */
module Dags {
  import opened Types
  import opened Graphs
  import opened Bytes
  import opened Blocks
  import opened Ghostdag
  import opened Consensus
  import opened ChainSelection
  import opened Sums
  import opened MergesetWalk
  import opened Difficulty
  import opened Order
  import opened StoredData
  import opened Acceptance
  import opened Oracle
  import Pow

  datatype BlockPreview = BlockPreview(selectedParent: BlockId, mergeset: seq<BlockId>)

  class Dag {
    const k: nat
    const genesis: BlockId
    var nodes: Nodes
    var tips: set<BlockId>
    const reach: Reachability
    var validator: Option<Validator>
    var difficulty: Option<Retarget>
    var requirePow: bool

    ghost predicate Valid()
      reads this`nodes, this`tips, reach
    {
      && Consistent(k, genesis, nodes, tips) && Lineages(nodes) && Identified(nodes)
      && reach.Valid(GraphOf(nodes)) && reach.treeParent == SelectedParents(nodes) && reach.root == genesis
    }

    lemma Unfolded()
      requires Valid()
      ensures Consistent(k, genesis, nodes, tips) && Lineages(nodes) && Identified(nodes) && WellFormed(GraphOf(nodes))
      ensures reach.Valid(GraphOf(nodes)) && reach.treeParent == SelectedParents(nodes) && reach.root == genesis
    {
    }

    lemma Folded()
      requires Consistent(k, genesis, nodes, tips) && Lineages(nodes) && Identified(nodes)
      requires reach.Valid(GraphOf(nodes)) && reach.treeParent == SelectedParents(nodes) && reach.root == genesis
      ensures Valid()
    {
    }

    /** A DAG holding only `block` as its genesis. */
    constructor (k: nat, block: Block)
      ensures Valid() && fresh(reach)
      ensures this.k == k && genesis == Id(block) && State(nodes, tips) == Start(block)
      ensures validator == None && difficulty == None && !requirePow
    {
      hide *;
      var id := Id(block);
      StartConsistent(k, block);
      StartOnly(block);
      this.k := k;
      genesis := id;
      nodes := map[id := Node(block, 0, {}, GENESIS_DATA)];
      tips := {id};
      validator := None;
      difficulty := None;
      requirePow := false;
      reach := new Reachability.Build(map[id := Node(block, 0, {}, GENESIS_DATA)], id, k, {id});
      new;
      Folded();
    }

    /** Whether `ancestor` is a strict ancestor of `descendant`. */
    predicate IsAncestor(ancestor: BlockId, descendant: BlockId)
      reads this, reach
    {
      reach.IsAncestor(ancestor, descendant)
    }

    predicate InAnticone(a: BlockId, b: BlockId)
      reads this, reach
    {
      a != b && !IsAncestor(a, b) && !IsAncestor(b, a)
    }

    /** The stored DAG answers ancestry exactly. */
    lemma AncestryIsExact(a: BlockId, b: BlockId)
      requires Valid()
      ensures IsAncestor(a, b) <==> Anc(GraphOf(nodes), a, b)
      ensures IsAncestor(a, b) <==> a in Past(GraphOf(nodes), b)
      ensures InAnticone(a, b) <==> Parallel(GraphOf(nodes), a, b)
    {
      reach.AnswersAreExact(GraphOf(nodes), a, b);
      reach.AnswersAreExact(GraphOf(nodes), b, a);
      AncPresent(GraphOf(nodes), a, b);
      AncPresent(GraphOf(nodes), b, a);
    }

    /** Rebuilding the oracle from the stored blocks changes no answer. */
    method Rebuild() returns (rebuilt: Reachability)
      requires && Valid() && |nodes| <= ROOT_CAPACITY
               && forall p :: p in nodes[genesis].block.parents ==> p == genesis || p !in nodes
      ensures fresh(rebuilt) && rebuilt.Valid(GraphOf(nodes))
      ensures forall a, b :: rebuilt.IsAncestor(a, b) <==> IsAncestor(a, b)
      ensures forall a, b :: rebuilt.IsChainAncestor(a, b) <==> reach.IsChainAncestor(a, b)
    {
      hide *;
      Unfolded();
      rebuilt := new Reachability.Build(nodes, genesis, k, tips);
      forall a, b ensures rebuilt.IsAncestor(a, b) <==> IsAncestor(a, b)
        ensures rebuilt.IsChainAncestor(a, b) <==> reach.IsChainAncestor(a, b)
      {
        OraclesAgree(rebuilt, reach, GraphOf(nodes), a, b);
        AsksOracle(a, b);
      }
    }

    lemma AsksOracle(a: BlockId, b: BlockId)
      ensures IsAncestor(a, b) <==> reach.IsAncestor(a, b)
    {
    }

    /** `x` is `sp` or an ancestor of it. */
    predicate AtOrBelow(x: BlockId, sp: BlockId)
      reads this, reach
    {
      x == sp || IsAncestor(x, sp)
    }

    lemma BoundaryIsPast(x: BlockId, sp: BlockId)
      requires Valid()
      ensures AtOrBelow(x, sp) <==> x == sp || x in Past(GraphOf(nodes), sp)
    {
      AncestryIsExact(x, sp);
    }

    /** The mergeset of a block with selected parent `sp` and the given parents, by a
        backward walk bounded by `sp`'s past, in topological order. */
    method MergesetOrdered(sp: BlockId, parents: seq<BlockId>) returns (mergeset: seq<BlockId>)
      requires Valid() && Present(nodes, parents) && sp in parents
      ensures mergeset == MergeOrder(nodes, parents, sp)
    {
      ghost var g := GraphOf(nodes);
      var seen: set<BlockId>, queue, merged := {}, parents, [];
      StartWalk(g, parents, sp);
      ghost var unseen := nodes.Keys;
      while queue != []
        invariant Walking(g, parents, sp, seen, queue, merged)
        invariant forall x :: x in nodes && x !in seen ==> x in unseen
        decreases unseen, |queue|
      {
        hide Walking, Consistent, PastOf, PastEq, Past, GraphOf;
        var x := queue[0];
        BoundaryIsPast(x, sp);
        if x in seen {
          SeenStep(g, parents, sp, seen, queue, merged);
          queue := queue[1..];
        } else if AtOrBelow(x, sp) {
          BoundaryStep(g, parents, sp, seen, queue, merged);
          queue, seen, unseen := queue[1..], seen + {x}, unseen - {x};
        } else {
          MergeStep(k, genesis, nodes, tips, parents, sp, seen, queue, merged);
          queue, seen, merged := queue[1..] + nodes[x].block.parents, seen + {x}, merged + [x];
          unseen := unseen - {x};
        }
      }
      WalkSorts(nodes, parents, sp, seen, merged);
      mergeset := SortTopo(nodes, merged);
    }

    /** Whether `candidate` may join the blue set whose anticone sizes are given; if so, the
        blues in its anticone. The map is visited in any order. */
    method TryColourBlue(candidate: BlockId, sizes: map<BlockId, int>) returns (bumped: Option<seq<BlockId>>)
      requires Valid() && sizes == AnticoneSizes(GraphOf(nodes), sizes.Keys)
      ensures bumped.Some? <==> FitsCluster(GraphOf(nodes), k, sizes.Keys, candidate)
      ensures bumped.Some? ==>
                Distinct(bumped.value) && Elements(bumped.value) == Anti(GraphOf(nodes), candidate, sizes.Keys)
      ensures bumped.Some? ==> forall b :: b in bumped.value ==> b in sizes
    {
      hide Consistent, GraphOf, Past, FitsCluster, Parallel, Anti, AnticoneSizes;
      ghost var g, blues := GraphOf(nodes), sizes.Keys;
      var found: seq<BlockId> := [];
      var rest := sizes.Keys;
      while rest != {}
        invariant rest <= blues && Distinct(found) && |found| <= k
        invariant forall y :: y in found ==> y in blues && y !in rest && Parallel(g, candidate, y) && sizes[y] + 1 <= k
        invariant forall y :: y in blues && y !in rest && Parallel(g, candidate, y) ==> y in found
        decreases rest
      {
        var blue :| blue in rest;
        rest := rest - {blue};
        AnticoneIsParallel(blue, candidate);
        if !InAnticone(blue, candidate) {
          continue;
        }
        if |found| + 1 > k {
          TooManyBlues(g, k, blues, candidate, found, blue);
          return None;
        }
        if sizes[blue] + 1 > k {
          FullBlue(g, k, sizes, candidate, blue);
          return None;
        }
        found := found + [blue];
      }
      AllBluesFit(g, k, sizes, candidate, found);
      bumped := Some(found);
    }

    lemma AnticoneIsParallel(a: BlockId, b: BlockId)
      requires Valid()
      ensures InAnticone(a, b) <==> Parallel(GraphOf(nodes), b, a)
    {
      AncestryIsExact(a, b);
      AncestryIsExact(b, a);
    }

    /** Colour the mergeset in order, keeping every blue block's anticone size up to date. */
    method ColourMergeset(sp: BlockId, mergeset: seq<BlockId>)
      returns (sizes: map<BlockId, int>, blues: seq<BlockId>, reds: seq<BlockId>)
      requires Valid() && sp in nodes && Distinct(mergeset)
      requires forall c :: c in mergeset ==> c !in Blues(nodes, sp) + {sp}
      ensures var g, base := GraphOf(nodes), Blues(nodes, sp) + {sp};
              && sizes == AnticoneSizes(g, Coloured(g, k, base, mergeset))
              && (blues, reds) == Verdicts(g, k, base, mergeset)
    {
      ghost var g, base := GraphOf(nodes), Blues(nodes, sp) + {sp};
      hide Consistent, GraphOf, FitsCluster, Anti;
      SeedSizes(k, genesis, nodes, tips, sp);
      sizes := nodes[sp].ghostdag.blueAnticoneSizes[sp := 0];
      blues, reds := [], [];
      assert mergeset[..0] == [];
      for i := 0 to |mergeset|
        invariant sizes == AnticoneSizes(g, Coloured(g, k, base, mergeset[..i]))
        invariant (blues, reds) == Verdicts(g, k, base, mergeset[..i])
      {
        hide Consistent, GraphOf, FitsCluster, Anti, Blues, Coloured, Verdicts, AnticoneSizes, Distinct;
        ghost var before := Coloured(g, k, base, mergeset[..i]);
        SizesKeys(g, before);
        ColourStep(g, k, base, mergeset, i);
        var candidate := mergeset[i];
        var increments := TryColourBlue(candidate, sizes);
        match increments {
          case Some(found) =>
            sizes := RecordBlue(sizes, candidate, found, g);
            blues := blues + [candidate];
          case None =>
            reds := reds + [candidate];
        }
      }
      assert mergeset[..|mergeset|] == mergeset;
    }

    /** What is known of a stored parent. */
    lemma ParentFacts(parents: seq<BlockId>, sp: BlockId)
      requires Valid() && Present(nodes, parents) && sp in parents
      ensures sp in nodes && Derived(nodes, k, sp) && BlueCluster(nodes, k, sp) && Acyclic(GraphOf(nodes))
    {
      NodeFacts(k, genesis, nodes, tips, sp);
    }

    /** Derive the data of a new block from its parents, without changing the DAG. */
    method ComputeGhostdag(parents: seq<BlockId>) returns (gd: GhostdagData)
      requires Valid() && parents != [] && Present(nodes, parents)
      ensures gd == Derive(nodes, k, parents, HeaviestOf(nodes, parents))
    {
      hide *;
      var sp := HeaviestOf(nodes, parents);
      ParentFacts(parents, sp);
      var mergeset := MergesetOrdered(sp, parents);
      MergeDisjoint(nodes, k, parents, sp);
      var sizes, blues, reds := ColourMergeset(sp, mergeset);
      DeriveColours(nodes, k, parents, sp, mergeset, sizes, blues, reds);
      var blueWork := BlueWorkOf(nodes, k, sp, parents, blues);
      DeriveTotals(nodes, k, parents, sp);
      gd := GhostdagData(Some(sp), blues, reds, nodes[sp].ghostdag.blueScore + 1 + |blues|, blueWork, sizes);
    }

    function CurrentRules(): Rules
      reads this
    {
      Rules(validator, difficulty, requirePow)
    }

    lemma RulesNow()
      ensures CurrentRules() == Rules(validator, difficulty, requirePow)
    {
    }

    /** The checks that need only the stored ids: a new block with present parents. */
    method CheckStructure(block: Block, id: BlockId) returns (e: Option<DagError>)
      requires id == Id(block)
      ensures e == StructureRefusal(nodes, block)
    {
      hide Id;
      if id in nodes {
        return Some(DuplicateBlock(id));
      }
      if block.parents == [] {
        return Some(NoParents(id));
      }
      var ps := block.parents;
      assert ps[0..] == ps;
      for i := 0 to |ps|
        invariant FirstMissing(nodes, ps) == FirstMissing(nodes, ps[i..])
      {
        assert ps[i..][0] == ps[i] && ps[i..][1..] == ps[i + 1..];
        if ps[i] !in nodes {
          return Some(MissingParent(ps[i]));
        }
      }
      e := None;
    }

    /** The last `window + 1` blocks of the selected chain ending at `tip`, oldest first. */
    method ChainSamples(tip: BlockId, window: nat) returns (samples: seq<TimedWork>)
      requires Valid() && tip in nodes
      ensures samples == Latest(TimesTo(nodes, tip), window + 1)
    {
      hide *;
      Unfolded();
      var newest: seq<TimedWork> := [];
      var cur := Some(tip);
      ghost var older := TimesTo(nodes, tip);
      ReverseEmpty(older);
      while cur.Some?
        invariant cur.Some? ==> cur.value in nodes && older == TimesTo(nodes, cur.value)
        invariant |newest| <= window && TimesTo(nodes, tip) == older + Reverse(newest)
        invariant cur.None? ==> older == []
        decreases if cur.Some? then 1 + |Past(GraphOf(nodes), cur.value)| else 0
      {
        ChainStep(nodes, cur.value);
        var t := TimedWork(nodes[cur.value].block.timestamp, nodes[cur.value].block.work);
        ReverseSnoc(newest, t);
        newest := newest + [t];
        older := older[..|older| - 1];
        assert TimesTo(nodes, tip) == older + Reverse(newest);
        if |newest| == window + 1 {
          break;
        }
        cur := nodes[cur.value].ghostdag.selectedParent;
      }
      samples := Reverse(newest);
      ReverseTwice(newest);
      LatestOf(older, samples, window + 1);
    }

    /** Enforce the difficulty rules on a prospective block. */
    method CheckDifficulty(block: Block, id: BlockId, sp: BlockId, retarget: Retarget) returns (e: Option<DagError>)
      requires Valid() && sp in nodes && id == Id(block) && Present(nodes, block.parents)
      ensures e == DifficultyRefusal(nodes, block, sp, retarget)
    {
      hide *;
      Unfolded();
      var ps := block.parents;
      ParentsStored(nodes, ps);
      var t := block.timestamp;
      assert ps[0..] == ps;
      for i := 0 to |ps|
        invariant Present(nodes, ps[i..]) && FirstLater(nodes, ps, t) == FirstLater(nodes, ps[i..], t)
      {
        LaterStep(nodes, ps[i..], t);
        assert ps[i..][0] == ps[i] && ps[i..][1..] == ps[i + 1..];
        if t < nodes[ps[i]].block.timestamp {
          LateRefusal(nodes, block, sp, retarget, ps[i]);
          return Some(NonMonotonicTimestamp(id, t, nodes[ps[i]].block.timestamp));
        }
      }
      assert ps[|ps|..] == [];
      NoneLater(nodes, t);
      var samples := ChainSamples(sp, retarget.window);
      SampledWork(retarget, TimesTo(nodes, sp));
      var expected := NextWork(retarget, samples);
      WorkRefusal(nodes, block, sp, retarget);
      if block.work != expected {
        return Some(DifficultyMismatch(id, expected, block.work));
      }
      e := None;
    }

    /** The work a block on these parents must carry, if difficulty is enforced. */
    method NextWorkTarget(parents: seq<BlockId>) returns (target: Option<u128>)
      requires Valid() && Present(nodes, parents)
      ensures target == if difficulty.None? || parents == [] then None
                        else Some(RequiredWork(nodes, difficulty.value, HeaviestOf(nodes, parents)))
      // A block on these parents passes the difficulty check exactly with this work and a late enough time.
      ensures Lineages(nodes)
      ensures forall block: Block {:trigger StructureRefusal(nodes, block)} ::
                target.Some? && block.parents == parents && StructureRefusal(nodes, block).None? ==>
                  (DifficultyRefusal(nodes, block, HeaviestOf(nodes, parents), difficulty.value).None? <==>
                     && block.work == target.value
                     && forall p :: p in parents ==> nodes[p].block.timestamp <= block.timestamp)
    {
      hide Consistent, NextWork, Latest, IsHeaviest, StructureRefusal, DifficultyRefusal;
      if difficulty.None? || parents == [] {
        return None;
      }
      var sp := HeaviestOf(nodes, parents);
      var samples := ChainSamples(sp, difficulty.value.window);
      SampledWork(difficulty.value, TimesTo(nodes, sp));
      target := Some(NextWork(difficulty.value, samples));
      forall block: Block {:trigger StructureRefusal(nodes, block)}
        | block.parents == parents && StructureRefusal(nodes, block).None?
        ensures DifficultyRefusal(nodes, block, HeaviestOf(nodes, parents), difficulty.value).None? <==>
                  block.work == target.value && forall p :: p in parents ==> nodes[p].block.timestamp <= block.timestamp
      {
        RequiredWorkPasses(nodes, difficulty.value, block);
      }
    }

    /** The selected parent and mergeset `block` would get, without inserting it. */
    method Preview(block: Block) returns (r: Result<BlockPreview, DagError>)
      requires Valid()
      ensures r == match StructureRefusal(nodes, block)
                   case Some(e) => Err(e)
                   case None =>
                     var sp := HeaviestOf(nodes, block.parents);
                     Ok(BlockPreview(sp, MergeOrder(nodes, block.parents, sp)))
    {
      hide *;
      var e := CheckStructure(block, Id(block));
      if e.Some? {
        return Err(e.value);
      }
      var sp := HeaviestOf(nodes, block.parents);
      var mergeset := MergesetOrdered(sp, block.parents);
      r := Ok(BlockPreview(sp, mergeset));
    }

    /** Every rule, in order; on success the data to store. */
    method Check(block: Block, id: BlockId) returns (r: Result<GhostdagData, DagError>)
      requires Valid() && id == Id(block)
      ensures r.Err? <==> Refusal(nodes, CurrentRules(), block).Some?
      ensures r.Err? ==> Refusal(nodes, CurrentRules(), block) == Some(r.error)
      ensures r.Ok? ==> r.value == Derive(nodes, k, block.parents, HeaviestOf(nodes, block.parents))
    {
      hide *;
      Unfolded();
      var rules := Rules(validator, difficulty, requirePow);
      RulesNow();
      RefusalOrder(nodes, rules, block);
      var e := CheckStructure(block, id);
      if e.Some? {
        return Err(e.value);
      }
      if validator.Some? {
        var reason := validator.value(block);
        if reason.Some? {
          return Err(InvalidBlock(id, reason.value));
        }
      }
      var gd := ComputeGhostdag(block.parents);
      var sp := HeaviestOf(nodes, block.parents);
      ParentFacts(block.parents, sp);
      SomeParent(nodes, k, block.parents, sp);
      if difficulty.Some? {
        e := CheckDifficulty(block, id, gd.selectedParent.value, difficulty.value);
        if e.Some? {
          return Err(e.value);
        }
      }
      if requirePow {
        var mined := Pow.ComputeMeetsTarget(id, block.work);
        if !mined {
          return Err(InsufficientProofOfWork(id, block.work));
        }
      }
      r := Ok(gd);
    }

    /** Attach the block to its parents and refresh the tips. */
    method Wire(block: Block, id: BlockId)
      requires Present(nodes, block.parents) && id !in nodes
      modifies this`nodes, this`tips
      ensures nodes == WithChild(old(nodes), block.parents, id)
      ensures tips == old(tips) - Elements(block.parents) + {id}
    {
      var ps := block.parents;
      assert ps[..0] == [];
      for i := 0 to |ps|
        invariant nodes == WithChild(old(nodes), ps[..i], id)
        invariant tips == old(tips) - Elements(ps[..i])
      {
        var p := ps[i];
        assert ps[..i + 1] == ps[..i] + [p];
        Snoc(ps[..i], p);
        assert p in old(nodes);
        ChildAdded(old(nodes), ps[..i], id, p);
        nodes := nodes[p := nodes[p].(children := nodes[p].children + {id})];
        tips := tips - {p};
      }
      assert ps[..|ps|] == ps;
      tips := tips + {id};
    }

    /** Insert `block`: a refused block leaves everything as it was; an accepted one is
        stored with the data its past determines, and the oracle stays exact. */
    method Insert(block: Block) returns (r: Result<BlockId, DagError>)
      requires Valid() && |nodes| < ROOT_CAPACITY
      modifies this`nodes, this`tips, reach
      ensures Valid()
      ensures r == match Refusal(old(nodes), CurrentRules(), block)
                   case Some(e) => Err(e)
                   case None => Ok(Id(block))
      ensures State(nodes, tips) == Acceptance.Insert(k, CurrentRules(), State(old(nodes), old(tips)), block)
      ensures r.Ok? && difficulty.Some? ==>
                && Lineages(old(nodes)) && StructureRefusal(old(nodes), block).None?
                && OnTarget(old(nodes), difficulty.value, block)
    {
      hide *;
      Unfolded();
      var id := Id(block);
      var checked := Check(block, id);
      RulesNow();
      InsertUnfold(k, CurrentRules(), State(nodes, tips), block);
      if checked.Err? {
        return Err(checked.error);
      }
      if difficulty.Some? {
        AcceptedWork(nodes, CurrentRules(), block);
      }
      Append(block, id, checked.value);
      RulesNow();
      r := Ok(id);
    }

    /** Store an accepted block and fold it into the oracle. */
    method Append(block: Block, id: BlockId, gd: GhostdagData)
      requires Valid() && |nodes| < ROOT_CAPACITY && id == Id(block) && StructureRefusal(nodes, block).None?
      requires gd == Derive(nodes, k, block.parents, HeaviestOf(nodes, block.parents))
      modifies this`nodes, this`tips, reach
      ensures Valid()
      ensures nodes == WithBlock(old(nodes), k, block) && tips == WithTip(old(tips), block)
    {
      hide *;
      Unfolded();
      ghost var nodes0, tips0, g := nodes, tips, GraphOf(nodes);
      ghost var parents := block.parents;
      ReadyToAppend(block);
      SomeParent(nodes, k, parents, HeaviestOf(nodes, parents));
      var sp := gd.selectedParent.value;
      var pastSize := nodes[sp].pastSize + 1 + |gd.mergesetBlues| + |gd.mergesetReds|;
      var mergeset := gd.mergesetBlues + gd.mergesetReds;
      Wire(block, id);
      nodes := nodes[id := Node(block, pastSize, {}, gd)];
      StoredNode(k, genesis, nodes0, tips0, block, pastSize);
      TipsNamed(tips0, block);
      reach.AddBlock(id, sp, mergeset, g, parents);
      Appended(nodes0, tips0, block, sp);
    }

    /** What the oracle needs to know of the block about to be folded in. */
    lemma ReadyToAppend(block: Block)
      requires Valid() && StructureRefusal(nodes, block).None?
      ensures var g, id, ps := GraphOf(nodes), Id(block), block.parents;
              var sp := HeaviestOf(nodes, ps);
              var d := Derive(nodes, k, ps, sp);
              var m := d.mergesetBlues + d.mergesetReds;
              && Present(nodes, ps) && sp in nodes && sp in ps && id !in nodes
              && reach.Valid(g) && WellFormed(g) && id !in g && |g| == |nodes| && (forall p :: p in ps ==> p in g)
              && Distinct(m) && PastOf(g, ps) == PastEq(g, sp) + Elements(m) && Elements(m) !! PastEq(g, sp)
    {
      var sp := HeaviestOf(nodes, block.parents);
      assert Present(nodes, block.parents) && Id(block) !in nodes;
      hide Id, Derive, PastOf, PastEq;
      GraphCount(nodes);
      NodeFacts(k, genesis, nodes, tips, sp);
      hide Consistent, BlueCluster, Derived;
      MergesetDistinct(nodes, k, block.parents, sp);
      PastSplits(nodes, block.parents, sp);
      MergeApart(GraphOf(nodes), block.parents, sp);
    }

    lemma Appended(nodes0: Nodes, tips0: set<BlockId>, block: Block, sp: BlockId)
      requires Consistent(k, genesis, nodes0, tips0) && Identified(nodes0) && StructureRefusal(nodes0, block).None?
      requires nodes == WithBlock(nodes0, k, block) && tips == WithTip(tips0, block)
      requires reach.Valid(GraphOf(nodes0)[Id(block) := block.parents]) && reach.root == genesis
      requires sp == HeaviestOf(nodes0, block.parents)
      requires reach.treeParent == SelectedParents(nodes0)[Id(block) := sp]
      ensures Valid()
    {
      hide WithBlock, WithTip, StructureRefusal, Consistent, Lineages, GraphOf, SelectedParents, Id, IsHeaviest;
      AcceptKeeps(k, genesis, nodes0, tips0, block);
      AcceptIdentified(nodes0, k, block);
      AcceptGraph(k, genesis, nodes0, tips0, block);
    }

    /** The heaviest tip, which is the heaviest block of all. */
    method SelectedTip() returns (tip: BlockId)
      requires Valid()
      ensures tip in nodes && tip in tips && tip == HeaviestBlock(nodes)
      // No block has more blue work; none of as much has a higher blue score; and none that equals
      // it in both has a larger id.
      ensures forall b :: b in nodes ==>
                || nodes[b].ghostdag.blueWork < nodes[tip].ghostdag.blueWork
                || (&& nodes[b].ghostdag.blueWork == nodes[tip].ghostdag.blueWork
                    && (|| nodes[b].ghostdag.blueScore < nodes[tip].ghostdag.blueScore
                        || (nodes[b].ghostdag.blueScore == nodes[tip].ghostdag.blueScore && b <= tip)))
    {
      hide *;
      Unfolded();
      TipsStored();
      var best: Option<BlockId> := None;
      var rest := tips;
      while rest != {}
        invariant rest <= tips && (best.None? <==> rest == tips)
        invariant best.Some? ==> best.value in nodes && best.value in tips && IsHeaviest(nodes, tips - rest, best.value)
        decreases rest
      {
        var t :| t in rest;
        Weigh(nodes, tips, rest, best, t);
        rest := rest - {t};
        if best.None? || KeyLess(ChainKey(nodes, best.value), ChainKey(nodes, t)) {
          best := Some(t);
        }
      }
      assert tips - rest == tips;
      if best.None? {
        return genesis;
      }
      tip := best.value;
      TipIsHeaviest(k, genesis, nodes, tips, tip);
      HeaviestSpelledOut(nodes, nodes.Keys, tip);
      HeaviestUnique(nodes, nodes.Keys, tip, HeaviestBlock(nodes));
    }

    lemma TipsStored()
      requires Valid()
      ensures (forall t :: t in tips ==> t in nodes) && tips != {}
    {
      forall t | t in tips ensures t in nodes {
        assert IsTip(nodes, t);
      }
      var _ := TipAbove(k, genesis, nodes, tips, genesis);
    }

    /** The selected-parent chain from genesis to the selected tip. */
    method SelectedChain() returns (chain: seq<BlockId>)
      requires Valid()
      ensures nodes != map[] && chain == ChainTo(nodes, HeaviestBlock(nodes))
    {
      hide *;
      Unfolded();
      var cur := SelectedTip();
      var newest := [cur];
      ChainEnds(nodes, cur);
      ReverseSingle(cur);
      ghost var tip, older := cur, ChainTo(nodes, cur)[..|ChainTo(nodes, cur)| - 1];
      while nodes[cur].ghostdag.selectedParent.Some?
        invariant cur in nodes && ChainTo(nodes, cur) == older + [cur]
        invariant ChainTo(nodes, tip) == older + Reverse(newest)
        decreases |Past(GraphOf(nodes), cur)|
      {
        ChainEnds(nodes, cur);
        cur := nodes[cur].ghostdag.selectedParent.value;
        ChainEnds(nodes, cur);
        ReverseSnoc(newest, cur);
        newest := newest + [cur];
        older := older[..|older| - 1];
        assert ChainTo(nodes, tip) == older + Reverse(newest);
      }
      ChainEnds(nodes, cur);
      chain := Reverse(newest);
    }

    /** The mergeset a stored block was coloured with, in order; empty for genesis. */
    method MergesetOrderOf(block: BlockId) returns (mergeset: seq<BlockId>)
      requires Valid() && block in nodes
      ensures mergeset == MergesetOf(nodes, block)
    {
      hide *;
      Unfolded();
      StoredParents(k, genesis, nodes, tips, block);
      match nodes[block].ghostdag.selectedParent
      case None =>
        mergeset := [];
      case Some(sp) =>
        mergeset := MergesetOrdered(sp, nodes[block].block.parents);
    }

    /** The total order of the whole DAG. */
    method Linearize() returns (order: seq<BlockId>)
      requires Valid()
      ensures nodes != map[] && order == Linearization(nodes, HeaviestBlock(nodes))
    {
      hide *;
      Unfolded();
      var chain := SelectedChain();
      ghost var tip := HeaviestBlock(nodes);
      ChainEnds(nodes, tip);
      order := [];
      for i := 0 to |chain|
        invariant i > 0 ==> chain[i - 1] in nodes && order == OrderOf(nodes, chain[i - 1])
        invariant i == 0 ==> order == []
      {
        ChainLinks(nodes, tip, i);
        var merged := MergesetOrderOf(chain[i]);
        order := order + merged + [chain[i]];
      }
      OrderOfIsTopological(k, genesis, nodes, tips, tip);
      var tail := Unlisted(order);
      TailSorted(nodes, tip, order, tail);
      order := order + SortTopo(nodes, tail);
    }

    /** The stored blocks missing from `order`, in any order. */
    method Unlisted(order: seq<BlockId>) returns (tail: seq<BlockId>)
      ensures Distinct(tail) && forall b :: b in tail <==> b in nodes && b !in order
    {
      tail := [];
      var rest := nodes.Keys;
      while rest != {}
        invariant rest <= nodes.Keys && Distinct(tail)
        invariant forall b :: b in tail <==> b in nodes && b !in rest && b !in order
        decreases rest
      {
        var b :| b in rest;
        rest := rest - {b};
        if b !in order {
          tail := tail + [b];
        }
      }
    }
  }

  /** The selected parent's blue work, its own work, and that of the merged blues. */
  method BlueWorkOf(nodes: Nodes, ghost k: nat, sp: BlockId, ghost parents: seq<BlockId>, blues: seq<BlockId>)
    returns (blueWork: int)
    requires BlueCluster(nodes, k, sp) && Derived(nodes, k, sp) && Acyclic(GraphOf(nodes)) && sp in parents
    requires blues == Derive(nodes, k, parents, sp).mergesetBlues
    ensures blueWork == Derive(nodes, k, parents, sp).blueWork
  {
    hide GraphOf, Derive, BlueCluster, WorkOf, Acyclic;
    StartWork(nodes, k, parents, sp);
    blueWork := nodes[sp].ghostdag.blueWork + nodes[sp].block.work;
    assert blues[..0] == [];
    for i := 0 to |blues|
      invariant blueWork == WorkOf(nodes, Blues(nodes, sp) + {sp} + Elements(blues[..i]))
    {
      NextWorkStep(nodes, k, parents, sp, i);
      blueWork := blueWork + nodes[blues[i]].block.work;
    }
    assert blues[..|blues|] == blues;
    DeriveTotals(nodes, k, parents, sp);
  }

  lemma DeriveColours(nodes: Nodes, k: nat, ps: seq<BlockId>, sp: BlockId, m: seq<BlockId>, sizes: map<BlockId, int>,
                      blues: seq<BlockId>, reds: seq<BlockId>)
    requires sp in nodes && m == MergeOrder(nodes, ps, sp)
    requires var g, base := GraphOf(nodes), Blues(nodes, sp) + {sp};
             && sizes == AnticoneSizes(g, Coloured(g, k, base, m))
             && (blues, reds) == Verdicts(g, k, base, m)
    ensures var d := Derive(nodes, k, ps, sp);
            && d.selectedParent == Some(sp) && d.mergesetBlues == blues && d.mergesetReds == reds
            && d.blueAnticoneSizes == sizes
  {
    hide AnticoneSizes, GraphOf, Coloured, Verdicts;
  }

  lemma DeriveTotals(nodes: Nodes, k: nat, ps: seq<BlockId>, sp: BlockId)
    requires BlueCluster(nodes, k, sp) && Derived(nodes, k, sp) && Acyclic(GraphOf(nodes)) && sp in ps
    ensures var d, base := Derive(nodes, k, ps, sp), Blues(nodes, sp) + {sp};
            && d.blueScore == nodes[sp].ghostdag.blueScore + 1 + |d.mergesetBlues|
            && d.blueWork == WorkOf(nodes, base + Elements(d.mergesetBlues))
  {
    ScoreAndWork(nodes, k, sp);
    NewBluesFacts(nodes, k, ps, sp);
    var d, blues := Derive(nodes, k, ps, sp), NewBlues(nodes, k, ps, sp);
    assert d.blueScore == |blues| && d.blueWork == WorkOf(nodes, blues);
    hide *;
  }

  lemma MergeDisjoint(nodes: Nodes, k: nat, ps: seq<BlockId>, sp: BlockId)
    requires BlueCluster(nodes, k, sp)
    ensures Distinct(MergeOrder(nodes, ps, sp))
    ensures forall c :: c in MergeOrder(nodes, ps, sp) ==> c !in Blues(nodes, sp) + {sp}
  {
    MergeOrderFacts(nodes, ps, sp);
  }

  lemma StartWork(nodes: Nodes, k: nat, ps: seq<BlockId>, sp: BlockId)
    requires BlueCluster(nodes, k, sp) && Derived(nodes, k, sp) && Acyclic(GraphOf(nodes))
    ensures WorkOf(nodes, Blues(nodes, sp) + {sp} + Elements([])) == nodes[sp].ghostdag.blueWork + nodes[sp].block.work
  {
    ScoreAndWork(nodes, k, sp);
    var blues := Blues(nodes, sp);
    assert sp in nodes && blues <= nodes.Keys && sp !in blues by {
      assert sp !in Past(GraphOf(nodes), sp);
    }
    hide Blues, BlueCluster, Derived, Acyclic, WorkOf;
    assert blues + {sp} + Elements([]) == blues + {sp};
    WorkAdds(nodes, blues, sp);
  }

  /** A blue mergeset block is new to the blue set when its turn comes. */
  lemma BlueIsFresh(nodes: Nodes, k: nat, ps: seq<BlockId>, sp: BlockId, i: nat)
    requires BlueCluster(nodes, k, sp) && Acyclic(GraphOf(nodes)) && sp in ps
    requires i < |Derive(nodes, k, ps, sp).mergesetBlues|
    ensures var bs := Derive(nodes, k, ps, sp).mergesetBlues;
            bs[i] in nodes && bs[i] !in Blues(nodes, sp) + {sp} && bs[i] !in bs[..i]
  {
    var d := Derive(nodes, k, ps, sp);
    var bs, all := d.mergesetBlues, d.mergesetBlues + d.mergesetReds;
    MergesetDistinct(nodes, k, ps, sp);
    hide Derive;
    assert all[i] == bs[i] && all[i] in Elements(all);
    forall j | 0 <= j < i ensures bs[j] != bs[i] {
      assert all[j] == bs[j];
    }
  }

  /** Each blue mergeset block adds its own work once. */
  lemma NextWorkStep(nodes: Nodes, k: nat, ps: seq<BlockId>, sp: BlockId, i: nat)
    requires BlueCluster(nodes, k, sp) && Acyclic(GraphOf(nodes)) && sp in ps
    requires i < |Derive(nodes, k, ps, sp).mergesetBlues|
    ensures var bs, base := Derive(nodes, k, ps, sp).mergesetBlues, Blues(nodes, sp) + {sp};
            && bs[i] in nodes
            && WorkOf(nodes, base + Elements(bs[..i + 1])) ==
               WorkOf(nodes, base + Elements(bs[..i])) + nodes[bs[i]].block.work
  {
    BlueIsFresh(nodes, k, ps, sp, i);
    var bs, base := Derive(nodes, k, ps, sp).mergesetBlues, Blues(nodes, sp) + {sp};
    hide Derive, BlueCluster, GraphOf, Acyclic, WorkOf;
    assert bs[..i + 1] == bs[..i] + [bs[i]];
    Snoc(bs[..i], bs[i]);
    assert base + Elements(bs[..i + 1]) == base + Elements(bs[..i]) + {bs[i]};
    WorkAdds(nodes, base + Elements(bs[..i]), bs[i]);
  }

  lemma WorkAdds(nodes: Nodes, inner: set<BlockId>, x: BlockId)
    requires x in nodes && x !in inner
    ensures WorkOf(nodes, inner + {x}) == WorkOf(nodes, inner) + nodes[x].block.work
  {
    assert (inner + {x}) * nodes.Keys == inner * nodes.Keys + {x};
    SumAdd(inner * nodes.Keys, Works(nodes), x);
  }

  /** Blues and reds together list the mergeset, each block once. */
  lemma MergesetDistinct(nodes: Nodes, k: nat, ps: seq<BlockId>, sp: BlockId)
    requires BlueCluster(nodes, k, sp) && Acyclic(GraphOf(nodes)) && sp in ps
    ensures var d := Derive(nodes, k, ps, sp);
            && Distinct(d.mergesetBlues + d.mergesetReds)
            && Elements(d.mergesetBlues + d.mergesetReds) == MergeSet(GraphOf(nodes), ps, sp)
  {
    NewBluesFacts(nodes, k, ps, sp);
    var d := Derive(nodes, k, ps, sp);
    hide Derive, BlueCluster, GraphOf, MergeSet;
    ConcatMembers(d.mergesetBlues, d.mergesetReds);
    CountDistinct(d.mergesetBlues + d.mergesetReds);
  }
  /** Record a new blue block with the blues in its anticone, and bump each of those. */
  method RecordBlue(sizes: map<BlockId, int>, candidate: BlockId, found: seq<BlockId>, ghost g: Graph)
    returns (r: map<BlockId, int>)
    requires sizes == AnticoneSizes(g, sizes.Keys) && candidate !in sizes && Distinct(found)
    requires Elements(found) == Anti(g, candidate, sizes.Keys) && forall b :: b in found ==> b in sizes
    ensures r == AnticoneSizes(g, sizes.Keys + {candidate})
  {
    hide Anti, AnticoneSizes, Distinct;
    r := sizes[candidate := |found|];
    r := BumpAll(r, found);
    SizesGrow(g, sizes.Keys, candidate, sizes, found, r);
  }

  /** Add one to the entry of every listed block. */
  method BumpAll(sizes: map<BlockId, int>, found: seq<BlockId>) returns (r: map<BlockId, int>)
    requires Distinct(found) && forall b :: b in found ==> b in sizes
    ensures r.Keys == sizes.Keys
    ensures forall x :: x in sizes ==> r[x] == sizes[x] + if x in found then 1 else 0
  {
    r := sizes;
    for i := 0 to |found|
      invariant r.Keys == sizes.Keys
      invariant forall x :: x in sizes ==> r[x] == sizes[x] + if x in found[..i] then 1 else 0
    {
      var b := found[i];
      assert b in found && b !in found[..i];
      r := r[b := r[b] + 1];
      assert forall x :: x in found[..i + 1] <==> x in found[..i] || x == b;
    }
    assert found[..|found|] == found;
  }

  lemma TooManyBlues(g: Graph, k: nat, blues: set<BlockId>, c: BlockId, found: seq<BlockId>, blue: BlockId)
    requires Distinct(found) && |found| + 1 > k && blue !in found && blue in blues && Parallel(g, c, blue)
    requires forall y :: y in found ==> y in blues && Parallel(g, c, y)
    ensures !FitsCluster(g, k, blues, c)
  {
    DistinctCount(found);
    var seen := Elements(found) + {blue};
    assert |seen| == |found| + 1;
    SubsetCardinality(seen, Anti(g, c, blues));
  }

  lemma FullBlue(g: Graph, k: nat, sizes: map<BlockId, int>, c: BlockId, blue: BlockId)
    requires sizes == AnticoneSizes(g, sizes.Keys) && blue in sizes && Parallel(g, c, blue) && sizes[blue] + 1 > k
    ensures !FitsCluster(g, k, sizes.Keys, c)
  {
    assert blue in Anti(g, c, sizes.Keys);
  }

  lemma AllBluesFit(g: Graph, k: nat, sizes: map<BlockId, int>, c: BlockId, found: seq<BlockId>)
    requires sizes == AnticoneSizes(g, sizes.Keys) && Distinct(found) && |found| <= k
    requires forall y :: y in found ==> y in sizes && Parallel(g, c, y) && sizes[y] + 1 <= k
    requires forall y :: y in sizes && Parallel(g, c, y) ==> y in found
    ensures FitsCluster(g, k, sizes.Keys, c) && Elements(found) == Anti(g, c, sizes.Keys)
  {
    assert Elements(found) == Anti(g, c, sizes.Keys);
    DistinctCount(found);
    forall y | y in Anti(g, c, sizes.Keys) ensures |Anti(g, y, sizes.Keys)| < k {
      assert y in found;
    }
  }

  lemma SizesKeys(g: Graph, blues: set<BlockId>)
    ensures AnticoneSizes(g, blues).Keys == blues
  {
  }

  /** The selected parent's recorded sizes carry over, and it starts at zero itself. */
  lemma SeedSizes(k: nat, genesis: BlockId, nodes: Nodes, tips: set<BlockId>, sp: BlockId)
    requires Consistent(k, genesis, nodes, tips) && sp in nodes
    ensures nodes[sp].ghostdag.blueAnticoneSizes[sp := 0] == AnticoneSizes(GraphOf(nodes), Blues(nodes, sp) + {sp})
  {
    NodeFacts(k, genesis, nodes, tips, sp);
    ScoreAndWork(nodes, k, sp);
    assert sp !in Past(GraphOf(nodes), sp);
    TopAddsNothing(GraphOf(nodes), k, Blues(nodes, sp), sp);
  }

  lemma ColourStep(g: Graph, k: nat, base: set<BlockId>, cands: seq<BlockId>, i: nat)
    requires i < |cands| && Distinct(cands) && forall c :: c in cands ==> c !in base
    ensures var before, c := Coloured(g, k, base, cands[..i]), cands[i];
            && c !in before
            && Coloured(g, k, base, cands[..i + 1]) == (if FitsCluster(g, k, before, c) then before + {c} else before)
            && var (bs, rs) := Verdicts(g, k, base, cands[..i]);
               Verdicts(g, k, base, cands[..i + 1]) ==
               if FitsCluster(g, k, before, c) then (bs + [c], rs) else (bs, rs + [c])
  {
    assert cands[..i + 1][..i] == cands[..i];
    VerdictsPartition(g, k, base, cands[..i]);
    var (bs, rs) := Verdicts(g, k, base, cands[..i]);
    var c := cands[i];
    assert c !in cands[..i];
    assert c !in Elements(cands[..i]);
    hide FitsCluster, Anti;
  }

  lemma SizesGrow(g: Graph, blues: set<BlockId>, c: BlockId, sizes: map<BlockId, int>, found: seq<BlockId>,
                  after: map<BlockId, int>)
    requires sizes == AnticoneSizes(g, blues) && c !in blues
    requires Elements(found) == Anti(g, c, blues) && Distinct(found)
    requires after.Keys == blues + {c}
    requires forall x :: x in after ==> after[x] == sizes[c := |found|][x] + if x in found then 1 else 0
    ensures after == AnticoneSizes(g, blues + {c})
  {
    DistinctCount(found);
    forall x | x in blues + {c} ensures after[x] == |Anti(g, x, blues + {c})| {
      AntiGrows(g, blues, c, x);
      ParallelSymmetric(g, x, c);
      assert x in found <==> x in Elements(found);
      if x == c {
        AntiSelf(g, blues, c);
      }
    }
  }

  lemma SeenStep(g: Graph, ps: seq<BlockId>, sp: BlockId, seen: set<BlockId>, queue: seq<BlockId>, merged: seq<BlockId>)
    requires Walking(g, ps, sp, seen, queue, merged) && queue != [] && queue[0] in seen
    ensures Walking(g, ps, sp, seen, queue[1..], merged)
  {
    SkipBlock(g, ps, sp, seen, queue, merged);
    assert seen + {queue[0]} == seen;
  }

  /** A block at or below `sp` ends the walk on that branch. */
  lemma BoundaryStep(g: Graph, ps: seq<BlockId>, sp: BlockId, seen: set<BlockId>, queue: seq<BlockId>,
                     merged: seq<BlockId>)
    requires Walking(g, ps, sp, seen, queue, merged) && queue != [] && queue[0] !in seen
    requires queue[0] == sp || queue[0] in Past(g, sp)
    ensures Walking(g, ps, sp, seen + {queue[0]}, queue[1..], merged)
    ensures queue[0] in g
  {
    assert queue[0] in Elements(queue);
    SkipBlock(g, ps, sp, seen, queue, merged);
  }

  /** Any other block is merged and its parents are walked. */
  lemma MergeStep(k: nat, genesis: BlockId, nodes: Nodes, tips: set<BlockId>, ps: seq<BlockId>, sp: BlockId,
                  seen: set<BlockId>, queue: seq<BlockId>, merged: seq<BlockId>)
    requires Consistent(k, genesis, nodes, tips) && sp in nodes
    requires Walking(GraphOf(nodes), ps, sp, seen, queue, merged) && queue != [] && queue[0] !in seen
    requires queue[0] != sp && queue[0] !in Past(GraphOf(nodes), sp)
    ensures queue[0] in nodes
    ensures Walking(GraphOf(nodes), ps, sp, seen + {queue[0]}, queue[1..] + nodes[queue[0]].block.parents,
                    merged + [queue[0]])
  {
    assert queue[0] in Elements(queue);
    assert queue[0] in nodes;
    ParentsOfMerged(k, genesis, nodes, tips, queue[0], sp);
    MergeBlock(GraphOf(nodes), ps, sp, seen, queue, merged);
  }

  lemma WalkSorts(nodes: Nodes, ps: seq<BlockId>, sp: BlockId, seen: set<BlockId>, merged: seq<BlockId>)
    requires WellFormed(GraphOf(nodes)) && Walking(GraphOf(nodes), ps, sp, seen, [], merged)
    ensures forall x :: x in merged ==> x in nodes
    ensures SortTopo(nodes, merged) == MergeOrder(nodes, ps, sp)
  {
    var g := GraphOf(nodes);
    WalkDone(g, ps, sp, seen, merged);
    assert forall x :: x in merged ==> x in Elements(merged);
    SortTopoLists(nodes, merged);
    ListsUnique(nodes, MergeSet(g, ps, sp), SortTopo(nodes, merged), MergeOrder(nodes, ps, sp));
  }

  /** Genesis is below every block, so the walk never reaches it. */
  lemma {:induction false} GenesisBelowAll(k: nat, genesis: BlockId, nodes: Nodes, tips: set<BlockId>, b: BlockId)
    requires Consistent(k, genesis, nodes, tips) && b in nodes
    ensures genesis in PastEq(GraphOf(nodes), b)
    decreases |Past(GraphOf(nodes), b)|
  {
    if b != genesis {
      BlueBase(k, genesis, nodes, tips, b);
      var sp := nodes[b].ghostdag.selectedParent.value;
      PastShrinks(GraphOf(nodes), sp, b);
      GenesisBelowAll(k, genesis, nodes, tips, sp);
    }
  }

  lemma ParentsOfMerged(k: nat, genesis: BlockId, nodes: Nodes, tips: set<BlockId>, x: BlockId, sp: BlockId)
    requires Consistent(k, genesis, nodes, tips) && x in nodes && sp in nodes && x !in PastEq(GraphOf(nodes), sp)
    ensures GraphOf(nodes)[x] == nodes[x].block.parents && Closed(GraphOf(nodes))
  {
    GenesisBelowAll(k, genesis, nodes, tips, sp);
    BlueBase(k, genesis, nodes, tips, x);
  }

  lemma AncPresent(g: Graph, a: BlockId, b: BlockId)
    requires WellFormed(g)
    ensures Anc(g, a, b) <==> a in Past(g, b)
    ensures Anc(g, a, b) ==> a != b && a in g && b in g
  {
    if Anc(g, a, b) {
      var n :| n > 0 && Steps(g, a, b, n);
      StepsStayInside(g, a, b, n);
    }
  }

  lemma StartOnly(block: Block)
    ensures Start(block) == State(map[Id(block) := Node(block, 0, {}, GENESIS_DATA)], {Id(block)})
    ensures |Start(block).nodes| == 1 <= ROOT_CAPACITY && Identified(Start(block).nodes)
  {
    assert Start(block).nodes.Keys == {Id(block)};
  }

  lemma ReverseSingle<T>(x: T)
    ensures Reverse([x]) == [x]
  {
    assert [x][1..] == [];
  }

  lemma ReverseEmpty<T>(s: seq<T>)
    ensures s == s + Reverse([])
  {
  }

  lemma ChainStep(nodes: Nodes, b: BlockId)
    requires b in nodes && Lineages(nodes)
    ensures var t, older := TimedWork(nodes[b].block.timestamp, nodes[b].block.work), TimesTo(nodes, b);
            && older != [] && older[|older| - 1] == t
            && match nodes[b].ghostdag.selectedParent
               case None => older[..|older| - 1] == []
               case Some(sp) => sp in nodes && older[..|older| - 1] == TimesTo(nodes, sp)
                                && |Past(GraphOf(nodes), sp)| < |Past(GraphOf(nodes), b)|
  {
    assert Lineage(nodes, b);
  }

  lemma LatestOf(older: seq<TimedWork>, s: seq<TimedWork>, n: nat)
    requires |s| == n || (older == [] && |s| <= n)
    ensures Latest(older + s, n) == s
  {
  }
  lemma LaterStep(nodes: Nodes, ps: seq<BlockId>, t: u64)
    requires Present(nodes, ps) && ps != []
    ensures ps[0] in nodes && Present(nodes, ps[1..])
    ensures FirstLater(nodes, ps, t) ==
            if t < nodes[ps[0]].block.timestamp then Some(ps[0]) else FirstLater(nodes, ps[1..], t)
  {
  }

  lemma NoneLater(nodes: Nodes, t: u64)
    ensures Present(nodes, []) && FirstLater(nodes, [], t) == None
  {
  }

  lemma LateRefusal(nodes: Nodes, block: Block, sp: BlockId, r: Retarget, p: BlockId)
    requires sp in nodes && Lineages(nodes) && Present(nodes, block.parents)
    requires FirstLater(nodes, block.parents, block.timestamp) == Some(p)
    ensures p in nodes
    ensures DifficultyRefusal(nodes, block, sp, r) ==
            Some(NonMonotonicTimestamp(Id(block), block.timestamp, nodes[p].block.timestamp))
  {
  }

  lemma WorkRefusal(nodes: Nodes, block: Block, sp: BlockId, r: Retarget)
    requires sp in nodes && Lineages(nodes) && Present(nodes, block.parents)
    requires FirstLater(nodes, block.parents, block.timestamp) == None
    ensures DifficultyRefusal(nodes, block, sp, r) ==
            var w := NextWork(r, TimesTo(nodes, sp));
            if block.work != w then Some(DifficultyMismatch(Id(block), w, block.work)) else None
  {
  }

  /** The order in which the rules are tried. */
  lemma RefusalOrder(nodes: Nodes, rules: Rules, block: Block)
    requires Lineages(nodes)
    ensures var refusal := Refusal(nodes, rules, block);
            match StructureRefusal(nodes, block)
            case Some(e) => refusal == Some(e)
            case None =>
              if rules.validator.Some? && rules.validator.value(block).Some?
              then refusal == Some(InvalidBlock(Id(block), rules.validator.value(block).value))
              else
                var late := if rules.difficulty.None? then None
                            else DifficultyRefusal(nodes, block, HeaviestOf(nodes, block.parents),
                                                   rules.difficulty.value);
                if late.Some? then refusal == late
                else if rules.requirePow && !Pow.MeetsTarget(Id(block), block.work)
                then refusal == Some(InsufficientProofOfWork(Id(block), block.work))
                else refusal == None
  {
    hide IsHeaviest, DifficultyRefusal;
  }

  lemma InsertUnfold(k: nat, rules: Rules, st: State, block: Block)
    requires Lineages(st.nodes)
    ensures Acceptance.Insert(k, rules, st, block) ==
            if Refusal(st.nodes, rules, block).Some? then st
            else State(WithBlock(st.nodes, k, block), WithTip(st.tips, block))
    ensures Refusal(st.nodes, rules, block).None? ==> StructureRefusal(st.nodes, block).None?
  {
  }

  lemma ChildAdded(nodes: Nodes, ps: seq<BlockId>, id: BlockId, p: BlockId)
    requires p in nodes && id !in nodes
    ensures var w := WithChild(nodes, ps, id);
            p in w && WithChild(nodes, ps + [p], id) == w[p := w[p].(children := w[p].children + {id})]
  {
    var w := WithChild(nodes, ps, id);
    assert forall b :: b in ps + [p] <==> b in ps || b == p;
    assert w[p].children + {id} == nodes[p].children + {id};
  }

  lemma GraphCount(nodes: Nodes)
    ensures GraphOf(nodes).Keys == nodes.Keys && |GraphOf(nodes)| == |nodes|
  {
    assert |GraphOf(nodes)| == |GraphOf(nodes).Keys| && |nodes| == |nodes.Keys|;
  }

  lemma MergeApart(g: Graph, ps: seq<BlockId>, sp: BlockId)
    ensures MergeSet(g, ps, sp) !! PastEq(g, sp)
  {
  }

  lemma BlockWritten(nodes: Nodes, k: nat, block: Block)
    requires StructureRefusal(nodes, block).None?
    ensures block.parents != [] && Present(nodes, block.parents)
    ensures HeaviestOf(nodes, block.parents) in nodes && HeaviestOf(nodes, block.parents) in block.parents
    ensures WithBlock(nodes, k, block) ==
            WithChild(nodes, block.parents, Id(block))[Id(block) :=
              Node(block, |PastOf(GraphOf(nodes), block.parents)|, {},
                   Derive(nodes, k, block.parents, HeaviestOf(nodes, block.parents)))]
  {
    hide Derive, GraphOf, PastOf, WithChild, Id, IsHeaviest;
  }

  /** The entry written is the one its past determines. */
  lemma StoredNode(k: nat, genesis: BlockId, nodes: Nodes, tips: set<BlockId>, block: Block, pastSize: nat)
    requires Consistent(k, genesis, nodes, tips) && StructureRefusal(nodes, block).None?
    requires var sp := HeaviestOf(nodes, block.parents);
             var d := Derive(nodes, k, block.parents, sp);
             sp in nodes && pastSize == nodes[sp].pastSize + 1 + |d.mergesetBlues| + |d.mergesetReds|
    ensures WithBlock(nodes, k, block) ==
            WithChild(nodes, block.parents, Id(block))[Id(block) :=
              Node(block, pastSize, {}, Derive(nodes, k, block.parents, HeaviestOf(nodes, block.parents)))]
  {
    hide *;
    var sp := HeaviestOf(nodes, block.parents);
    BlockWritten(nodes, k, block);
    PastCount(k, genesis, nodes, tips, block.parents, sp);
  }

  /** Weighing one more tip against the best so far. */
  lemma Weigh(nodes: Nodes, tips: set<BlockId>, rest: set<BlockId>, best: Option<BlockId>, t: BlockId)
    requires t in rest && rest <= tips && (forall x :: x in tips ==> x in nodes) && (best.None? <==> rest == tips)
    requires best.Some? ==> best.value in nodes && IsHeaviest(nodes, tips - rest, best.value)
    ensures t in nodes
    ensures var keep := best.Some? && !KeyLess(ChainKey(nodes, best.value), ChainKey(nodes, t));
            IsHeaviest(nodes, tips - (rest - {t}), if keep then best.value else t)
  {
    assert tips - (rest - {t}) == (tips - rest) + {t};
    var keep := best.Some? && !KeyLess(ChainKey(nodes, best.value), ChainKey(nodes, t));
    var m := if keep then best.value else t;
    forall p | p in (tips - rest) + {t} ensures Heavier(nodes, m, p) {
      if p != t {
        assert Heavier(nodes, best.value, p);
      }
    }
  }

  /** A selected chain ends at its block, after the chain of the selected parent. */
  lemma ChainEnds(nodes: Nodes, b: BlockId)
    requires b in nodes && Lineages(nodes)
    ensures var c := ChainTo(nodes, b);
            && c != [] && c[|c| - 1] == b
            && match nodes[b].ghostdag.selectedParent
               case None => c[..|c| - 1] == []
               case Some(sp) => sp in nodes && c[..|c| - 1] == ChainTo(nodes, sp)
                                && |Past(GraphOf(nodes), sp)| < |Past(GraphOf(nodes), b)|
  {
    assert Lineage(nodes, b);
  }

  /** Each block of a selected chain has the one before it as selected parent. */
  lemma {:induction false} ChainLinks(nodes: Nodes, b: BlockId, i: nat)
    requires b in nodes && Lineages(nodes) && i < |ChainTo(nodes, b)|
    ensures var c := ChainTo(nodes, b);
            && c[i] in nodes
            && nodes[c[i]].ghostdag.selectedParent == (if i == 0 then None else Some(c[i - 1]))
            && OrderOf(nodes, c[i]) ==
               (if i == 0 then [] else if c[i - 1] in nodes then OrderOf(nodes, c[i - 1]) else [])
               + MergesetOf(nodes, c[i]) + [c[i]]
    decreases |Past(GraphOf(nodes), b)|
  {
    assert Lineage(nodes, b);
    var c := ChainTo(nodes, b);
    if i + 1 < |c| {
      ChainLinks(nodes, nodes[b].ghostdag.selectedParent.value, i);
    } else if nodes[b].ghostdag.selectedParent.Some? {
      var sp := nodes[b].ghostdag.selectedParent.value;
      ChainEnds(nodes, sp);
      assert c[..|c| - 1] == ChainTo(nodes, sp);
    }
  }

  lemma StoredParents(k: nat, genesis: BlockId, nodes: Nodes, tips: set<BlockId>, b: BlockId)
    requires Consistent(k, genesis, nodes, tips) && b in nodes
    ensures match nodes[b].ghostdag.selectedParent
            case None => MergesetOf(nodes, b) == []
            case Some(sp) => var ps := nodes[b].block.parents;
                             Present(nodes, ps) && sp in ps && MergesetOf(nodes, b) == MergeOrder(nodes, ps, sp)
  {
    NodeFacts(k, genesis, nodes, tips, b);
    if b != genesis {
      BlueBase(k, genesis, nodes, tips, b);
    }
  }

  lemma TailSorted(nodes: Nodes, tip: BlockId, order: seq<BlockId>, tail: seq<BlockId>)
    requires && tip in nodes && Lineages(nodes) && order == OrderOf(nodes, tip)
             && Elements(order) == PastEq(GraphOf(nodes), tip)
    requires Distinct(tail) && forall b :: b in tail <==> b in nodes && b !in order
    ensures order + SortTopo(nodes, tail) == Linearization(nodes, tip)
  {
    hide OrderOf, Past, PastEq;
    var rest := nodes.Keys - PastEq(GraphOf(nodes), tip);
    assert forall b :: b in order <==> b in Elements(order);
    assert Elements(tail) == rest;
    SortTopoLists(nodes, tail);
    ListsUnique(nodes, rest, SortTopo(nodes, tail), TopoOrder(nodes, rest));
  }
}
