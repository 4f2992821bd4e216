/** Saving a ledger and rebuilding it by replaying its blocks. */
module LedgerSnapshots {
  import opened Types
  import opened Bytes
  import opened Encodings
  import opened Blocks
  import opened Ghostdag
  import opened Consensus
  import opened ChainSelection
  import opened Order
  import opened Acceptance
  import opened Replay
  import opened Oracle
  import opened Dags
  import opened Snapshots
  import opened Transactions
  import opened Payload
  import opened Apply
  import opened Validation
  import opened States
  import opened Finality
  import opened Ledgers

  datatype LedgerSnapshotError =
    | NotALedger
    | LedgerVersionUnsupported(version: nat)
    | DagMalformed(dag: SnapshotError)
    | PayloadMalformed(payload: DecodeError)
    | GenesisInvalid(genesis: LedgerError)
    | ReplayFailed(outcome: InsertOutcome)
    | EmptySnapshot

  /** "KVLG" */
  const LEDGER_MAGIC: Bytes := [75, 86, 76, 71]
  const LEDGER_VERSION: nat := 1

  function EncodeLedger(subsidy: u64, dagBytes: Bytes): Bytes {
    LEDGER_MAGIC + (ToLe(LEDGER_VERSION, 2) + (ToLe(subsidy, 8) + dagBytes))
  }

  datatype LedgerFrame = LedgerFrame(subsidy: nat, snapshot: DagSnapshot)

  /** The subsidy and blocks in a ledger snapshot, or what is wrong with its framing. */
  ghost function FrameOf(bytes: Bytes): Result<LedgerFrame, LedgerSnapshotError> {
    if |bytes| < 4 || bytes[..4] != LEDGER_MAGIC then Err(NotALedger)
    else if |bytes| < 14 then Err(DagMalformed(Malformed(UnexpectedEof)))
    else if FromLe(bytes[4..6]) != LEDGER_VERSION then Err(LedgerVersionUnsupported(FromLe(bytes[4..6])))
    else match SnapshotOf(bytes[14..])
         case Err(e) => Err(DagMalformed(e))
         case Ok(s) => Ok(LedgerFrame(FromLe(bytes[6..14]), s))
  }

  // ------------------------------------------------------------------
  // Replaying through the ledger

  /** A ledger without finality takes the block: the DAG accepts it and its transactions
      are valid in its view. */
  ghost predicate Admitted(nodes: Nodes, rules: Rules, subsidy: u64, block: Block)
    requires Lineages(nodes)
  {
    && Refusal(nodes, rules, block).None?
    && Applies(PreState(nodes, block.parents, HeaviestOf(nodes, block.parents), subsidy), block.payload, subsidy)
  }

  ghost predicate AllAdmitted(k: nat, rules: Rules, subsidy: u64, gen: Block, blocks: seq<Block>)
    decreases |blocks|
  {
    blocks == [] ||
      (AllAdmitted(k, rules, subsidy, gen, blocks[..|blocks| - 1]) &&
       Admitted(Run(k, rules, gen, blocks[..|blocks| - 1]).nodes, rules, subsidy, blocks[|blocks| - 1]))
  }

  lemma {:induction false} AdmittedAccepted(k: nat, rules: Rules, subsidy: u64, gen: Block, blocks: seq<Block>)
    requires AllAdmitted(k, rules, subsidy, gen, blocks)
    ensures AllAccepted(k, rules, gen, blocks)
    decreases |blocks|
  {
    hide Refusal, Applies, Run;
    if blocks != [] {
      AdmittedAccepted(k, rules, subsidy, gen, blocks[..|blocks| - 1]);
    }
  }

  lemma {:induction false} AdmittedFront(k: nat, rules: Rules, subsidy: u64, gen: Block, blocks: seq<Block>, i: nat)
    requires AllAdmitted(k, rules, subsidy, gen, blocks) && i < |blocks|
    ensures AllAdmitted(k, rules, subsidy, gen, blocks[..i])
    ensures Admitted(Run(k, rules, gen, blocks[..i]).nodes, rules, subsidy, blocks[i])
    decreases |blocks|
  {
    hide Admitted, Run;
    if i + 1 < |blocks| {
      var init := blocks[..|blocks| - 1];
      AdmittedFront(k, rules, subsidy, gen, init, i);
      assert init[..i] == blocks[..i];
    }
  }

  lemma AdmittedNext(k: nat, rules: Rules, subsidy: u64, gen: Block, blocks: seq<Block>, i: nat)
    requires i < |blocks| && AllAdmitted(k, rules, subsidy, gen, blocks[..i])
    ensures var st := Run(k, rules, gen, blocks[..i]);
            && (Admitted(st.nodes, rules, subsidy, blocks[i]) ==> AllAdmitted(k, rules, subsidy, gen, blocks[..i + 1]))
            && (!Admitted(st.nodes, rules, subsidy, blocks[i]) ==> !AllAdmitted(k, rules, subsidy, gen, blocks))
  {
    hide *;
    var front := blocks[..i + 1];
    assert front[..|front| - 1] == blocks[..i] && front[|front| - 1] == blocks[i];
    AdmittedLast(k, rules, subsidy, gen, front);
    if AllAdmitted(k, rules, subsidy, gen, blocks) {
      AdmittedFront(k, rules, subsidy, gen, blocks, i);
    }
  }

  lemma AdmittedLast(k: nat, rules: Rules, subsidy: u64, gen: Block, blocks: seq<Block>)
    requires blocks != [] && AllAdmitted(k, rules, subsidy, gen, blocks[..|blocks| - 1])
    ensures AllAdmitted(k, rules, subsidy, gen, blocks) <==>
            Admitted(Run(k, rules, gen, blocks[..|blocks| - 1]).nodes, rules, subsidy, blocks[|blocks| - 1])
  {
    hide Admitted, Run;
  }

  /** At unbounded finality, with every state stored, inserting succeeds exactly for an
      admitted block. */
  lemma InsertedIffAdmitted(nodes: Nodes, rules: Rules, subsidy: u64, stored: set<BlockId>, block: Block,
                            txs: seq<Transaction>)
    requires Lineages(nodes) && nodes != map[] && stored == nodes.Keys && TxsOf(block.payload) == Ok(txs)
    ensures OutcomeOf(nodes, rules, subsidy, U64_MAX, stored, block, txs).Inserted? <==>
              Admitted(nodes, rules, subsidy, block)
  {
    hide StructureRefusal, Score, BlockOutcome, PreState, Refusal, IsHeaviest, TxsOf;
    NoFinality(nodes);
  }

  // ------------------------------------------------------------------
  // A run agrees with its beginnings

  ghost predicate Within(nodes: Nodes, nodes': Nodes) {
    Agree(nodes, nodes', nodes.Keys) && PastClosed(nodes, nodes.Keys)
  }

  lemma WithinTransitive(a: Nodes, b: Nodes, c: Nodes)
    requires Within(a, b) && Within(b, c)
    ensures Within(a, c)
  {
    forall x | x in a ensures AgreeAt(a, c, x) {
      assert AgreeAt(a, b, x) && AgreeAt(b, c, x);
    }
  }

  lemma WithinStep(k: nat, genesis: BlockId, nodes: Nodes, tips: set<BlockId>, block: Block)
    requires Consistent(k, genesis, nodes, tips) && StructureRefusal(nodes, block).None?
    ensures Within(nodes, WithBlock(nodes, k, block))
  {
    SoundGraph(k, genesis, nodes, tips);
    hide *;
    WithBlockExtends(nodes, k, block);
    ExtendAgrees(nodes, WithBlock(nodes, k, block), Id(block));
    WithinIs(nodes, WithBlock(nodes, k, block));
  }

  lemma WithinIs(nodes: Nodes, nodes': Nodes)
    ensures Within(nodes, nodes') <==> Agree(nodes, nodes', nodes.Keys) && PastClosed(nodes, nodes.Keys)
  {
  }

  lemma {:induction false} RunWithin(k: nat, rules: Rules, gen: Block, blocks: seq<Block>, i: nat)
    requires AllAccepted(k, rules, gen, blocks) && i <= |blocks|
    ensures Within(Run(k, rules, gen, blocks[..i]).nodes, Run(k, rules, gen, blocks).nodes)
    decreases |blocks|
  {
    hide *;
    var nodes := Run(k, rules, gen, blocks).nodes;
    if i == |blocks| {
      assert blocks[..i] == blocks;
      RunSelf(k, rules, gen, blocks);
    } else {
      var init, x := blocks[..|blocks| - 1], blocks[|blocks| - 1];
      RunUnfold(k, rules, gen, blocks);
      RunWithin(k, rules, gen, init, i);
      assert init[..i] == blocks[..i];
      var st := Run(k, rules, gen, init);
      WithinStep(k, Id(gen), st.nodes, st.tips, x);
      WithinTransitive(Run(k, rules, gen, blocks[..i]).nodes, st.nodes, nodes);
    }
  }

  lemma RunSelf(k: nat, rules: Rules, gen: Block, blocks: seq<Block>)
    ensures var nodes := Run(k, rules, gen, blocks).nodes; Within(nodes, nodes)
  {
    var st := Run(k, rules, gen, blocks);
    SoundGraph(k, Id(gen), st.nodes, st.tips);
    hide Run;
    forall x | x in st.nodes ensures AgreeAt(st.nodes, st.nodes, x) {
    }
  }

  /** The state a block was checked on when it arrived is its pre-view at the end. */
  lemma ArrivalPreState(k: nat, rules: Rules, gen: Block, blocks: seq<Block>, i: nat, subsidy: u64)
    requires AllAccepted(k, rules, gen, blocks) && i < |blocks|
    ensures var st, final := Run(k, rules, gen, blocks[..i]), Run(k, rules, gen, blocks);
            var b := blocks[i];
            && Refusal(st.nodes, rules, b).None? && StructureRefusal(st.nodes, b).None?
            && Id(b) in final.nodes && final.nodes[Id(b)].block == b
            && PreState(st.nodes, b.parents, HeaviestOf(st.nodes, b.parents), subsidy) ==
               PreView(final.nodes, Id(b), subsidy)
  {
    hide *;
    AcceptedFront(k, rules, gen, blocks, i);
    var st, final, b := Run(k, rules, gen, blocks[..i]), Run(k, rules, gen, blocks), blocks[i];
    var sp := HeaviestOf(st.nodes, b.parents);
    ParentsStored(st.nodes, b.parents);
    var next := blocks[..i + 1];
    assert next[..|next| - 1] == blocks[..i] && next[|next| - 1] == b;
    ReplayAdvance(k, rules, gen, blocks, i);
    RunUnfold(k, rules, gen, next);
    NewNode(st.nodes, k, b);
    SomeParent(st.nodes, k, b.parents, sp);
    RunWithin(k, rules, gen, blocks, i);
    RunWithin(k, rules, gen, blocks, i + 1);
    WithinIs(st.nodes, final.nodes);
    WithinIs(Run(k, rules, gen, next).nodes, final.nodes);
    AgreesOn(Run(k, rules, gen, next).nodes, final.nodes, Id(b));
    AgreesOn(st.nodes, final.nodes, sp);
    ViewSteps(final.nodes, Id(b), subsidy);
    SamePreState(k, Id(gen), st.nodes, st.tips, final.nodes, st.nodes.Keys, b.parents, sp, subsidy);
  }

  lemma AgreesOn(nodes: Nodes, nodes': Nodes, b: BlockId)
    requires Agree(nodes, nodes', nodes.Keys) && b in nodes
    ensures b in nodes' && nodes'[b].block == nodes[b].block && nodes'[b].ghostdag == nodes[b].ghostdag
  {
    assert AgreeAt(nodes, nodes', b);
  }

  /** A DAG whose blocks are all valid in their own views replays through a ledger. */
  lemma {:induction false} ValidReplays(k: nat, rules: Rules, subsidy: u64, gen: Block, blocks: seq<Block>, i: nat)
    requires AllAccepted(k, rules, gen, blocks) && i <= |blocks|
    requires AllValidInView(Run(k, rules, gen, blocks).nodes, subsidy)
    ensures AllAdmitted(k, rules, subsidy, gen, blocks[..i])
  {
    hide *;
    var final := Run(k, rules, gen, blocks).nodes;
    if i == 0 {
      NoneAdmitted(k, rules, subsidy, gen, blocks[..i]);
    } else {
      ValidReplays(k, rules, subsidy, gen, blocks, i - 1);
      var b := blocks[i - 1];
      ArrivalPreState(k, rules, gen, blocks, i - 1, subsidy);
      ValidAt(final, subsidy, Id(b));
      ValidityOf(final, Id(b), subsidy);
      AdmittedIs(Run(k, rules, gen, blocks[..i - 1]).nodes, rules, subsidy, b);
      AdmittedNext(k, rules, subsidy, gen, blocks, i - 1);
    }
  }

  lemma NoneAdmitted(k: nat, rules: Rules, subsidy: u64, gen: Block, blocks: seq<Block>)
    requires blocks == []
    ensures AllAdmitted(k, rules, subsidy, gen, blocks)
  {
  }

  lemma AdmittedIs(nodes: Nodes, rules: Rules, subsidy: u64, b: Block)
    requires Lineages(nodes) && Refusal(nodes, rules, b).None?
    ensures Admitted(nodes, rules, subsidy, b) <==>
              Applies(PreState(nodes, b.parents, HeaviestOf(nodes, b.parents), subsidy), b.payload, subsidy)
  {
  }

  // ------------------------------------------------------------------
  // Writing and reading

  /** Serialise a ledger: its subsidy and the snapshot of its DAG. States are not stored. */
  method WriteLedger(ledger: Ledger) returns (bytes: Bytes)
    requires ledger.Valid()
    ensures Consistent(ledger.dag.k, ledger.genesis, ledger.dag.nodes, ledger.dag.tips) && Lineages(ledger.dag.nodes)
    ensures bytes == EncodeLedger(ledger.subsidy,
                                  EncodeSnapshot(ledger.dag.k,
                                                 LogOf(ledger.dag.k, ledger.genesis, ledger.dag.nodes,
                                                       ledger.dag.tips)))
  {
    hide *;
    ledger.Opened();
    bytes := LEDGER_MAGIC;
    bytes := bytes + ToLe(LEDGER_VERSION, 2);
    bytes := bytes + ToLe(ledger.subsidy, 8);
    var dagBytes := WriteSnapshot(ledger.dag);
    bytes := bytes + dagBytes;
    LedgerParts(ledger.subsidy, dagBytes);
  }

  lemma LedgerParts(subsidy: u64, dagBytes: Bytes)
    ensures EncodeLedger(subsidy, dagBytes) == LEDGER_MAGIC + ToLe(LEDGER_VERSION, 2) + ToLe(subsidy, 8) + dagBytes
  {
    hide ToLe;
  }

  /** The blocks replay: a genesis that applies to nothing, then admitted blocks. */
  ghost predicate Replays(k: nat, rules: Rules, subsidy: u64, blocks: seq<Block>) {
    && blocks != [] && Applies(map[], blocks[0].payload, subsidy)
    && AllAdmitted(k, rules, subsidy, GenesisWith(blocks[0].payload), blocks[1..])
  }

  method ReadFrame(bytes: Bytes) returns (r: Result<LedgerFrame, LedgerSnapshotError>)
    ensures r == FrameOf(bytes)
    ensures r.Ok? ==> r.value.subsidy < TWO_64
  {
    hide SnapshotOf, FromLe, Pow256;
    if |bytes| < 4 || bytes[..4] != LEDGER_MAGIC {
      return Err(NotALedger);
    }
    if |bytes| < 14 {
      return Err(DagMalformed(Malformed(UnexpectedEof)));
    }
    var version := FromLe(bytes[4..6]);
    if version != LEDGER_VERSION {
      return Err(LedgerVersionUnsupported(version));
    }
    var subsidy := FromLe(bytes[6..14]);
    EightBytesWide();
    ToFromLe(bytes[6..14]);
    var snapshot := DecodeSnapshot(bytes[14..]);
    if snapshot.Err? {
      return Err(DagMalformed(snapshot.error));
    }
    r := Ok(LedgerFrame(subsidy, snapshot.value));
  }

  lemma FrameFacts(bytes: Bytes)
    requires |bytes| < TWO_64 && FrameOf(bytes).Ok?
    ensures |FrameOf(bytes).value.snapshot.blocks| < ROOT_CAPACITY
    ensures forall b :: b in FrameOf(bytes).value.snapshot.blocks ==> Ascending(b.parents)
  {
    FewBlocks(bytes[14..]);
    var raws := Decoded(Encode, Storable, bytes[14..][8..]).value;
    hide Decoded;
    forall b | b in RebuiltAll(raws) ensures Ascending(b.parents) {
      var i :| 0 <= i < |raws| && RebuiltAll(raws)[i] == b;
      SortIdsSorts(raws[i].parents);
    }
  }

  /** A decoded block put together again from its parts is the same block. */
  lemma Reassembled(b: Block, txs: seq<Transaction>)
    requires Ascending(b.parents) && TxsOf(b.payload) == Ok(txs)
    ensures AllEncodable(txs) && MakeBlock(b.parents, b.work, b.timestamp, b.nonce, EncodePayload(txs)) == b
  {
    hide TxsOf;
    PayloadCanonical(b.payload);
    SortIdsStable(b.parents);
  }
  /** The first thing wrong with a snapshot's blocks, as the replay finds it. */
  ghost predicate Unreadable(k: nat, rules: Rules, subsidy: u64, blocks: seq<Block>, e: LedgerSnapshotError) {
    if blocks == [] then e == EmptySnapshot
    else
      match TxsOf(blocks[0].payload)
      case Err(d) => e == PayloadMalformed(d)
      case Ok(txs) =>
        match BlockOutcome(map[], txs, subsidy)
        case Err(g) => e == GenesisInvalid(g)
        case Ok(_) => exists i: nat :: StopsAt(k, rules, subsidy, GenesisWith(blocks[0].payload), blocks[1..], i, e)
  }

  lemma UnreadableIs(k: nat, rules: Rules, subsidy: u64, blocks: seq<Block>)
    ensures blocks == [] ==> Unreadable(k, rules, subsidy, blocks, EmptySnapshot)
    ensures blocks != [] && TxsOf(blocks[0].payload).Err? ==>
              Unreadable(k, rules, subsidy, blocks, PayloadMalformed(TxsOf(blocks[0].payload).error))
    ensures blocks != [] && TxsOf(blocks[0].payload).Ok? ==>
              var made := BlockOutcome(map[], TxsOf(blocks[0].payload).value, subsidy);
              && (made.Err? ==> Unreadable(k, rules, subsidy, blocks, GenesisInvalid(made.error)))
              && forall i: nat, e
                   {:trigger StopsAt(k, rules, subsidy, GenesisWith(blocks[0].payload), blocks[1..], i, e)} ::
                   made.Ok? && StopsAt(k, rules, subsidy, GenesisWith(blocks[0].payload), blocks[1..], i, e) ==>
                     Unreadable(k, rules, subsidy, blocks, e)
  {
    hide TxsOf, BlockOutcome, StopsAt;
  }

  /** Rebuild a ledger by replaying its blocks, at unbounded finality. */
  method ReadLedger(bytes: Bytes, validator: Validator) returns (r: Result<Ledger, LedgerSnapshotError>)
    requires |bytes| < TWO_64
    ensures FrameOf(bytes).Err? ==> r == Err(FrameOf(bytes).error)
    ensures FrameOf(bytes).Ok? ==>
              var frame, rules := FrameOf(bytes).value, Rules(Some(validator), None, false);
              && frame.subsidy < TWO_64
              && (r.Ok? <==> Replays(frame.snapshot.k, rules, frame.subsidy, frame.snapshot.blocks))
              && (r.Err? ==> Unreadable(frame.snapshot.k, rules, frame.subsidy, frame.snapshot.blocks, r.error))
              && (r.Ok? ==>
                    && fresh(r.value) && fresh(r.value.dag) && fresh(r.value.dag.reach) && r.value.Valid()
                    && r.value.dag.k == frame.snapshot.k && r.value.subsidy == frame.subsidy
                    && r.value.finalityDepth == U64_MAX && r.value.states.Keys == r.value.dag.nodes.Keys
                    && r.value.genesis == Id(GenesisWith(frame.snapshot.blocks[0].payload))
                    && State(r.value.dag.nodes, r.value.dag.tips) ==
                       Run(frame.snapshot.k, rules, GenesisWith(frame.snapshot.blocks[0].payload),
                           frame.snapshot.blocks[1..]))
  {
    hide *;
    var frame := ReadFrame(bytes);
    if frame.Err? {
      return Err(frame.error);
    }
    FrameFacts(bytes);
    var k, subsidy, blocks := frame.value.snapshot.k, frame.value.subsidy, frame.value.snapshot.blocks;
    ghost var rules := Rules(Some(validator), None, false);
    UnreadableIs(k, rules, subsidy, blocks);
    if blocks == [] {
      NoReplay(k, rules, subsidy, blocks);
      return Err(EmptySnapshot);
    }
    ReplaysIff(k, rules, subsidy, blocks);
    var genesisTxs := DecodeBlockPayload(blocks[0].payload);
    if genesisTxs.Err? {
      NoTxs(blocks[0].payload, subsidy);
      return Err(PayloadMalformed(genesisTxs.error));
    }
    PayloadCanonical(blocks[0].payload);
    GenesisIs(genesisTxs.value);
    GenesisTried(blocks[0].payload, genesisTxs.value, subsidy);
    var made := NewLedger(k, subsidy, genesisTxs.value, validator, U64_MAX);
    if made.Err? {
      return Err(GenesisInvalid(made.error));
    }
    var ledger := made.value;
    ghost var gen := GenesisWith(blocks[0].payload);
    r := ReplayAll(ledger, gen, blocks[1..], rules);
  }

  /** Block `i` of a replay is the first that is not inserted, for the reason `e`. */
  ghost predicate StopsAt(k: nat, rules: Rules, subsidy: u64, gen: Block, blocks: seq<Block>, i: nat,
                          e: LedgerSnapshotError) {
    && i < |blocks| && AllAdmitted(k, rules, subsidy, gen, blocks[..i])
    && Run(k, rules, gen, blocks[..i]).nodes != map[]
    && Stopper(Run(k, rules, gen, blocks[..i]).nodes, rules, subsidy, blocks[i], e)
  }

  /** Why a ledger that stores every state of `nodes` does not insert the decoded block. */
  ghost predicate Stopper(nodes: Nodes, rules: Rules, subsidy: u64, block: Block, e: LedgerSnapshotError)
    requires Lineages(nodes) && nodes != map[]
  {
    if TxsOf(block.payload).Err? then e == PayloadMalformed(TxsOf(block.payload).error)
    else e == ReplayFailed(OutcomeOf(nodes, rules, subsidy, U64_MAX, nodes.Keys, block, TxsOf(block.payload).value))
  }

  lemma StopperIs(nodes: Nodes, rules: Rules, subsidy: u64, block: Block)
    requires Lineages(nodes) && nodes != map[]
    ensures TxsOf(block.payload).Err? ==>
              Stopper(nodes, rules, subsidy, block, PayloadMalformed(TxsOf(block.payload).error))
    ensures TxsOf(block.payload).Ok? ==>
              Stopper(nodes, rules, subsidy, block,
                      ReplayFailed(OutcomeOf(nodes, rules, subsidy, U64_MAX, nodes.Keys, block,
                                             TxsOf(block.payload).value)))
  {
    hide TxsOf, OutcomeOf;
  }

  lemma StoppedAt(k: nat, rules: Rules, subsidy: u64, gen: Block, blocks: seq<Block>, i: nat, e: LedgerSnapshotError)
    requires && i < |blocks| && AllAdmitted(k, rules, subsidy, gen, blocks[..i])
             && Run(k, rules, gen, blocks[..i]).nodes != map[]
    requires Stopper(Run(k, rules, gen, blocks[..i]).nodes, rules, subsidy, blocks[i], e)
    ensures StopsAt(k, rules, subsidy, gen, blocks, i, e)
  {
    hide AllAdmitted, Run, Stopper;
  }

  /** Insert the remaining blocks of a snapshot one after another. */
  method ReplayAll(ledger: Ledger, ghost gen: Block, rest: seq<Block>, ghost rules: Rules)
    returns (r: Result<Ledger, LedgerSnapshotError>)
    requires ledger.Valid() && ledger.finalityDepth == U64_MAX && ledger.dag.CurrentRules() == rules
    requires State(ledger.dag.nodes, ledger.dag.tips) == Start(gen) && ledger.states.Keys == {Id(gen)}
    requires |rest| + 1 < ROOT_CAPACITY && forall b :: b in rest ==> Ascending(b.parents)
    modifies ledger`states, ledger.dag`nodes, ledger.dag`tips, ledger.dag.reach
    ensures r.Ok? <==> AllAdmitted(ledger.dag.k, rules, ledger.subsidy, gen, rest)
    ensures r.Err? ==> exists i: nat :: StopsAt(ledger.dag.k, rules, ledger.subsidy, gen, rest, i, r.error)
    ensures r.Ok? ==> r.value == ledger && ledger.Valid() && ledger.states.Keys == ledger.dag.nodes.Keys
                      && State(ledger.dag.nodes, ledger.dag.tips) == Run(ledger.dag.k, rules, gen, rest)
  {
    hide *;
    var dag := ledger.dag;
    ghost var k, subsidy := dag.k, ledger.subsidy;
    assert rest[..0] == [];
    RunEmpty(k, rules, gen);
    NoneAdmitted(k, rules, subsidy, gen, []);
    StartIds(gen);
    StartCount(gen);
    for i := 0 to |rest|
      invariant ledger.Valid() && dag.CurrentRules() == rules && ledger.states.Keys == dag.nodes.Keys
      invariant AllAdmitted(k, rules, subsidy, gen, rest[..i])
      invariant State(dag.nodes, dag.tips) == Run(k, rules, gen, rest[..i]) && |dag.nodes| == i + 1
    {
      var b := rest[i];
      ledger.Opened();
      AdmittedNext(k, rules, subsidy, gen, rest, i);
      AdmittedAccepted(k, rules, subsidy, gen, rest[..i]);
      ReplayAdvance(k, rules, gen, rest, i);
      StopperIs(dag.nodes, rules, subsidy, b);
      var txs := DecodeBlockPayload(b.payload);
      if txs.Err? {
        NotAdmitted(dag.nodes, rules, subsidy, b);
        StoppedAt(k, rules, subsidy, gen, rest, i, PayloadMalformed(txs.error));
        return Err(PayloadMalformed(txs.error));
      }
      Reassembled(b, txs.value);
      InsertedIffAdmitted(dag.nodes, rules, subsidy, ledger.states.Keys, b, txs.value);
      dag.RulesNow();
      ghost var nodes0 := dag.nodes;
      InsertUnfold(k, rules, State(dag.nodes, dag.tips), b);
      AdmittedPasses(nodes0, rules, subsidy, b);
      var outcome := ledger.Insert(b.parents, b.work, b.timestamp, b.nonce, txs.value);
      dag.RulesNow();
      if !outcome.Inserted? {
        StoppedAt(k, rules, subsidy, gen, rest, i, ReplayFailed(outcome));
        return Err(ReplayFailed(outcome));
      }
      UnboundedRetained(dag.nodes, nodes0.Keys + {Id(b)});
      NewNode(nodes0, k, b);
    }
    assert rest[..|rest|] == rest;
    r := Ok(ledger);
  }

  lemma NotAdmitted(nodes: Nodes, rules: Rules, subsidy: u64, b: Block)
    requires Lineages(nodes) && TxsOf(b.payload).Err?
    ensures !Admitted(nodes, rules, subsidy, b)
  {
  }

  lemma AdmittedPasses(nodes: Nodes, rules: Rules, subsidy: u64, b: Block)
    requires Lineages(nodes)
    ensures Admitted(nodes, rules, subsidy, b) ==> Refusal(nodes, rules, b).None?
  {
  }

  lemma NoReplay(k: nat, rules: Rules, subsidy: u64, blocks: seq<Block>)
    requires blocks == []
    ensures !Replays(k, rules, subsidy, blocks)
  {
  }

  lemma ReplaysIff(k: nat, rules: Rules, subsidy: u64, blocks: seq<Block>)
    requires blocks != []
    ensures Replays(k, rules, subsidy, blocks) <==>
              && Applies(map[], blocks[0].payload, subsidy)
              && AllAdmitted(k, rules, subsidy, GenesisWith(blocks[0].payload), blocks[1..])
  {
    hide Applies, AllAdmitted;
  }

  lemma NoTxs(payload: Bytes, subsidy: u64)
    requires TxsOf(payload).Err?
    ensures !Applies(map[], payload, subsidy)
  {
  }

  lemma GenesisTried(payload: Bytes, txs: seq<Transaction>, subsidy: u64)
    requires TxsOf(payload) == Ok(txs)
    ensures Applies(map[], payload, subsidy) <==> BlockOutcome(map[], txs, subsidy).Ok?
    ensures AllEncodable(txs) && EncodePayload(txs) == payload
  {
    PayloadCanonical(payload);
    hide BlockOutcome, TxsOf;
  }

  // ------------------------------------------------------------------
  // The round trip

  lemma BlockIsStructured(nodes: Nodes, b: BlockId, subsidy: u64)
    requires Lineages(nodes) && b in nodes && ValidInView(nodes, b, subsidy)
    ensures PayloadOk(nodes[b].block.payload)
  {
    var payload := nodes[b].block.payload;
    hide BlockOutcome, TxsOf, PreView, PayloadOk;
    PayloadCanonical(payload);
    AppliedIsStructured(PreView(nodes, b, subsidy), TxsOf(payload).value, subsidy);
  }

  lemma StructuralIsPermissive(nodes: Nodes, validator: Validator, subsidy: u64)
    requires Lineages(nodes) && AllValidInView(nodes, subsidy) && Structural(validator)
    ensures Permissive(Rules(Some(validator), None, false), nodes)
  {
    hide ValidInView, PayloadOk;
    forall b | b in nodes ensures validator(nodes[b].block).None? {
      assert ValidInView(nodes, b, subsidy);
      BlockIsStructured(nodes, b, subsidy);
    }
  }

  lemma GenesisAppliesToNothing(nodes: Nodes, genesis: BlockId, subsidy: u64)
    requires Lineages(nodes) && genesis in nodes && ValidInView(nodes, genesis, subsidy)
    requires nodes[genesis].ghostdag.selectedParent.None?
    ensures Applies(map[], nodes[genesis].block.payload, subsidy)
  {
    hide PreView, Applies;
    ViewSteps(nodes, genesis, subsidy);
  }

  /** Reading back a written ledger always succeeds and restores the same DAG. */
  lemma LedgerRestores(k: nat, genesis: BlockId, nodes: Nodes, tips: set<BlockId>, subsidy: u64, validator: Validator)
    requires Consistent(k, genesis, nodes, tips) && Lineages(nodes) && Identified(nodes) && Formed(nodes, genesis)
    requires AllValidInView(nodes, subsidy) && Structural(validator)
    requires Kept(nodes) && k < TWO_16 && |nodes| < TWO_64
    ensures var log, rules := LogOf(k, genesis, nodes, tips), Rules(Some(validator), None, false);
            var bytes := EncodeLedger(subsidy, EncodeSnapshot(k, log));
            && FrameOf(bytes) == Ok(LedgerFrame(subsidy, DagSnapshot(k, log)))
            && Replays(k, rules, subsidy, log)
            && log != [] && GenesisWith(log[0].payload) == log[0] && Id(log[0]) == genesis
            && Run(k, rules, log[0], log[1..]) == State(nodes, tips)
  {
    hide *;
    var log, rules := LogOf(k, genesis, nodes, tips), Rules(Some(validator), None, false);
    SnapshotRestores(k, genesis, nodes, tips);
    FrameEncoded(subsidy, EncodeSnapshot(k, log));
    OrderStored(k, genesis, nodes, tips);
    var order := Linearization(nodes, HeaviestBlock(nodes));
    LogIs(k, genesis, nodes, tips, order);
    StructuralIsPermissive(nodes, validator, subsidy);
    ReplayRebuilds(k, genesis, nodes, tips, rules, order);
    FirstEntry(nodes, order, log);
    FormedGenesis(nodes, genesis);
    ValidAt(nodes, subsidy, genesis);
    GenesisRoot(k, genesis, nodes, tips);
    GenesisAppliesToNothing(nodes, genesis, subsidy);
    ValidReplays(k, rules, subsidy, log[0], log[1..], |log| - 1);
    assert log[1..][..|log| - 1] == log[1..];
    ReplaysIff(k, rules, subsidy, log);
  }

  lemma FormedGenesis(nodes: Nodes, genesis: BlockId)
    requires Formed(nodes, genesis)
    ensures genesis in nodes && nodes[genesis].block == GenesisWith(nodes[genesis].block.payload)
  {
  }

  lemma GenesisRoot(k: nat, genesis: BlockId, nodes: Nodes, tips: set<BlockId>)
    requires Consistent(k, genesis, nodes, tips)
    ensures genesis in nodes && nodes[genesis].ghostdag.selectedParent.None?
  {
    assert RootedAt(nodes, genesis, genesis);
  }

  lemma FrameEncoded(subsidy: u64, dagBytes: Bytes)
    requires SnapshotOf(dagBytes).Ok?
    ensures FrameOf(EncodeLedger(subsidy, dagBytes)) == Ok(LedgerFrame(subsidy, SnapshotOf(dagBytes).value))
  {
    hide SnapshotOf, FromLe;
    var bytes := EncodeLedger(subsidy, dagBytes);
    Widths();
    ToLeLength(LEDGER_VERSION, 2);
    ToLeLength(subsidy, 8);
    hide ToLe, Pow256;
    assert bytes[4..] == ToLe(LEDGER_VERSION, 2) + (ToLe(subsidy, 8) + dagBytes);
    LeAt(bytes, 4, 2, LEDGER_VERSION, ToLe(subsidy, 8) + dagBytes);
    LeAt(bytes, 6, 8, subsidy, dagBytes);
  }

  /** `read_snapshot(write_snapshot(ledger))`: the copy has the same DAG, the same state for
      every block the original still stores, and writes the same bytes. */
  method RestoreLedger(ledger: Ledger, validator: Validator) returns (copy: Ledger, bytes: Bytes, again: Bytes)
    requires ledger.Valid() && Structural(validator)
    requires Kept(ledger.dag.nodes) && ledger.dag.k < TWO_16 && |ledger.dag.nodes| < TWO_64
    requires Consistent(ledger.dag.k, ledger.genesis, ledger.dag.nodes, ledger.dag.tips) && Lineages(ledger.dag.nodes)
    requires |EncodeLedger(ledger.subsidy, EncodeSnapshot(ledger.dag.k,
                LogOf(ledger.dag.k, ledger.genesis, ledger.dag.nodes, ledger.dag.tips)))| < TWO_64
    ensures fresh(copy) && copy.Valid() && copy.subsidy == ledger.subsidy && copy.genesis == ledger.genesis
    ensures copy.dag.nodes == ledger.dag.nodes && copy.dag.tips == ledger.dag.tips && copy.dag.k == ledger.dag.k
    ensures copy.states.Keys == copy.dag.nodes.Keys
    ensures forall b :: b in ledger.states ==> b in copy.states && copy.states[b] == ledger.states[b]
    ensures again == bytes
  {
    hide *;
    ledger.Opened();
    ledger.dag.Unfolded();
    bytes := WriteLedger(ledger);
    LedgerRestores(ledger.dag.k, ledger.genesis, ledger.dag.nodes, ledger.dag.tips, ledger.subsidy, validator);
    var read := ReadLedger(bytes, validator);
    copy := read.value;
    copy.Opened();
    forall b | b in ledger.states ensures b in copy.states && copy.states[b] == ledger.states[b] {
      StateAt(ledger.dag.nodes, ledger.states, ledger.subsidy, b);
      StateAt(copy.dag.nodes, copy.states, copy.subsidy, b);
    }
    again := WriteLedger(copy);
  }
}
