/** When the coinbase of a produced block is already taken, and why it never is among producers
    that stamp their coinbases with their own block's time. */
module Coinbases {
  import opened Types
  import opened Graphs
  import opened Bytes
  import opened Blocks
  import opened Ghostdag
  import opened Consensus
  import opened ChainSelection
  import opened Order
  import opened Difficulty
  import opened Acceptance
  import opened Transactions
  import opened Payload
  import opened Utxos
  import opened Apply
  import opened Validation
  import opened States
  import opened Finality
  import opened Ledgers
  import opened Production
  import opened FullNodes
  import Pow

  function Coin(value: u64, owner: Address, tag: Bytes): Transaction {
    Transaction([], [TxOutput(value, owner)], tag)
  }

  // ------------------------------------------------------------------
  // A run on which production fails

  /** A genesis gift to `founder`, a peer's block claiming the whole subsidy for `miner` under the
      tag of a time to come, and a pending payment of the gift without a fee. */
  datatype Scene = Scene(subsidy: u64, value: u64, founder: Address, miner: Address, payee: Address, signature: Sig,
                         now: u64) {
    function Gift(): Transaction {
      Coin(value, founder, [])
    }

    function Claim(): Transaction {
      Coin(subsidy, miner, ToLe(now, 8))
    }

    function Payment(): Transaction {
      Transaction([TxInput(OutPoint(TxIdOf(Gift()), 0), signature)], [TxOutput(value, payee)], [])
    }

    function Genesis(): Block {
      GenesisBlock([Gift()])
    }

    ghost predicate Possible() {
      && 0 < value <= subsidy && value + 2 * subsidy <= U64_MAX
      && Verify(founder, SigHash(Payment()), signature)
      && TxIdOf(Gift()) != TxIdOf(Claim()) && TxIdOf(Gift()) != TxIdOf(Payment())
      && TxIdOf(Claim()) != TxIdOf(Payment())
    }

    /** What is unspent after the genesis, and after the peer's block. */
    function First(): Utxo {
      map[OutPoint(TxIdOf(Gift()), 0) := TxOutput(value, founder)]
    }

    function Second(): Utxo {
      First()[OutPoint(TxIdOf(Claim()), 0) := TxOutput(subsidy, miner)]
    }
  }

  /** The peer's block: earlier than `now`, with the work required of it if difficulty is on. */
  ghost predicate PeerBlock(s: Scene, rules: Rules, b: Block) {
    && b.parents == [Id(s.Genesis())] && Id(b) != Id(s.Genesis()) && b.timestamp < s.now
    && b.payload == EncodePayload([s.Claim()])
    && (rules.difficulty.Some? ==> b.work == rules.difficulty.value.minWork)
    && (rules.validator.Some? ==> Structural(rules.validator.value)) && !rules.requirePow
  }

  lemma CoinApplies(u: Utxo, value: u64, owner: Address, tag: Bytes, subsidy: u64)
    requires 0 < value <= subsidy && OutPoint(TxIdOf(Coin(value, owner, tag)), 0) !in u
    ensures BlockOutcome(u, [Coin(value, owner, tag)], subsidy) ==
            Ok(BlockApplied(u[OutPoint(TxIdOf(Coin(value, owner, tag)), 0) := TxOutput(value, owner)],
                            BlockSummary(0, value)))
  {
    hide TxIdOf;
    var cb := Coin(value, owner, tag);
    assert Created(cb.outputs, 0) == 0;
    assert Created(cb.outputs, 1) == value;
    assert OutputsError(cb, 0) == None;
    assert OutputsError(cb, 1) == None;
    assert OutPointAt(TxIdOf(cb), 0) == OutPoint(TxIdOf(cb), 0);
    assert WithOutputs(u, TxIdOf(cb), cb.outputs, 0) == Ok(u);
    assert WithOutputs(u, TxIdOf(cb), cb.outputs, 1) == Ok(u[OutPoint(TxIdOf(cb), 0) := TxOutput(value, owner)]);
    assert Regulars(u, [cb], 0) == Ok(Applied(u, 0));
    assert Regulars(u, [cb], 1) == Ok(Applied(u, 0));
  }

  /** The payment applies after the peer's block, pays no fee, and leaves the claim in place. */
  lemma PaymentApplies(s: Scene)
    requires s.Possible()
    ensures Regular(s.Second(), s.Payment()).Ok? && FeeIn(s.Second(), s.Payment()) == 0
    ensures OutPoint(TxIdOf(s.Claim()), 0) in Regular(s.Second(), s.Payment()).value.utxo
    ensures NamesAgree(s.Second(), [s.Payment()]) && Spends([s.Payment()])
  {
    hide TxIdOf, SigHash, ToLe;
    var u, tx := s.Second(), s.Payment();
    assert Spent(u, tx.inputs, 0) == 0;
    assert Spent(u, tx.inputs, 1) == s.value;
    assert Created(tx.outputs, 0) == 0;
    assert Created(tx.outputs, 1) == s.value;
    assert GoodInput(u, tx, 0);
    assert OutPointAt(TxIdOf(tx), 0) == OutPoint(TxIdOf(tx), 0);
    InputsRemovedAt(u, tx.inputs, OutPoint(TxIdOf(tx), 0));
    assert GoodSpend(u, tx);
    RegularIff(u, tx);
    RegularChanges(u, tx, OutPoint(TxIdOf(s.Claim()), 0));
  }

  /** The genesis gift is accepted, and then the peer's block is inserted. */
  lemma PeerBlockEnters(k: nat, s: Scene, rules: Rules, depth: nat, b: Block)
    requires s.Possible() && PeerBlock(s, rules, b)
    ensures var st := Start(s.Genesis());
            && st.nodes != map[] && Lineages(st.nodes) && Consistent(k, Id(s.Genesis()), st.nodes, st.tips)
            && StructureRefusal(st.nodes, b).None?
            && BlockOutcome(map[], [s.Gift()], s.subsidy).Ok?
            && PreState(st.nodes, b.parents, Id(s.Genesis()), s.subsidy) == s.First()
            && HeaviestOf(st.nodes, b.parents) == Id(s.Genesis())
            && BlockOutcome(s.First(), [s.Claim()], s.subsidy).Ok?
            && BlockOutcome(s.First(), [s.Claim()], s.subsidy).value.utxo == s.Second()
            && OutcomeOf(st.nodes, rules, s.subsidy, depth, {Id(s.Genesis())}, b, [s.Claim()]) == Inserted(Id(b))
  {
    hide *;
    var gen, st := s.Genesis(), Start(s.Genesis());
    SceneParts(s);
    PeerParts(s, rules, b);
    StartConsistent(k, gen);
    GenesisView(s);
    StartIs(gen, depth);
    OnlyParent(st.nodes, b, Id(gen));
    LoneParent(st.nodes, Id(gen));
    CoinApplies(s.First(), s.subsidy, s.miner, ToLe(s.now, 8), s.subsidy);
    SmallCoins(s);
    AppliedIsStructured(s.First(), [s.Claim()], s.subsidy);
    FirstTarget(k, gen, rules, b, s);
    GenesisPreState(s, b);
    PeerPasses(st.nodes, rules, s.subsidy, depth, {Id(gen)}, b, [s.Claim()], Id(gen), s.First());
  }

  lemma PeerParts(s: Scene, rules: Rules, b: Block)
    requires PeerBlock(s, rules, b)
    ensures && b.parents == [Id(s.Genesis())] && Id(b) != Id(s.Genesis()) && b.timestamp < s.now
            && b.payload == EncodePayload([s.Claim()])
    ensures (rules.validator.Some? ==> Structural(rules.validator.value)) && !rules.requirePow
  {
    hide Id;
  }

  lemma SceneParts(s: Scene)
    requires s.Possible()
    ensures s.Claim() == Coin(s.subsidy, s.miner, ToLe(s.now, 8)) && s.Gift() == Coin(s.value, s.founder, [])
    ensures 0 < s.value <= s.subsidy && s.Genesis() == GenesisBlock([s.Gift()])
    ensures OutPoint(TxIdOf(s.Claim()), 0) !in s.First()
    ensures s.Second() == s.First()[OutPoint(TxIdOf(s.Claim()), 0) := TxOutput(s.subsidy, s.miner)]
    ensures s.First() == map[][OutPoint(TxIdOf(s.Gift()), 0) := TxOutput(s.value, s.founder)]
  {
    hide TxIdOf, ToLe, SigHash;
  }

  lemma SmallCoins(s: Scene)
    ensures AllEncodable([s.Gift()]) && AllEncodable([s.Claim()]) && AllEncodable([s.Claim(), s.Payment()])
  {
    hide TxIdOf;
    ToLeLength(s.now, 8);
  }

  lemma StartIs(gen: Block, depth: nat)
    ensures var nodes := Start(gen).nodes;
            && nodes != map[] && HeaviestBlock(nodes) == Id(gen) && nodes.Keys == {Id(gen)}
            && nodes[Id(gen)].block == gen
            && nodes[Id(gen)].ghostdag.selectedParent.None? && FinalityOf(nodes, depth) == 0
  {
    hide Id, IsHeaviest;
    var nodes := Start(gen).nodes;
    assert Id(gen) in nodes;
    assert HeaviestBlock(nodes) in nodes;
  }

  /** Right after the genesis, the view of the genesis is its gift. */
  lemma GenesisView(s: Scene)
    requires s.Possible()
    ensures BlockOutcome(map[], [s.Gift()], s.subsidy).Ok? && Lineages(Start(s.Genesis()).nodes)
    ensures && Id(s.Genesis()) in Start(s.Genesis()).nodes
            && ViewOf(Start(s.Genesis()).nodes, Id(s.Genesis()), s.subsidy) == s.First()
  {
    hide *;
    var gen, nodes := s.Genesis(), Start(s.Genesis()).nodes;
    SceneParts(s);
    StartConsistent(0, gen);
    StartIs(gen, 0);
    CoinApplies(map[], s.value, s.founder, [], s.subsidy);
    SmallCoins(s);
    PayloadRoundTrip([s.Gift()]);
    GenesisIs([s.Gift()]);
    GenesisApplies(gen, [s.Gift()], s.subsidy);
    ViewSteps(nodes, Id(gen), s.subsidy);
  }

  lemma GenesisPreState(s: Scene, b: Block)
    requires s.Possible() && b.parents == [Id(s.Genesis())]
    ensures Lineages(Start(s.Genesis()).nodes) && Id(s.Genesis()) in Start(s.Genesis()).nodes
    ensures PreState(Start(s.Genesis()).nodes, b.parents, Id(s.Genesis()), s.subsidy) == s.First()
  {
    GenesisView(s);
    LoneParent(Start(s.Genesis()).nodes, Id(s.Genesis()));
    hide *;
    LonePreState(Start(s.Genesis()).nodes, Id(s.Genesis()), s.subsidy);
  }

  /** On a single parent a block is checked against that parent's view. */
  lemma LonePreState(nodes: Nodes, p: BlockId, subsidy: u64)
    requires p in nodes && Lineages(nodes) && MergeSet(GraphOf(nodes), [p], p) == {}
    ensures PreState(nodes, [p], p, subsidy) == ViewOf(nodes, p, subsidy)
  {
    hide MergeSet, GraphOf, ViewOf, OrderOf;
    EmptyElements(MergeOrder(nodes, [p], p));
  }

  /** On the genesis alone the minimum work is asked for. */
  lemma FirstTarget(k: nat, gen: Block, rules: Rules, b: Block, s: Scene)
    requires && gen == s.Genesis() && PeerBlock(s, rules, b) && Lineages(Start(gen).nodes)
             && StructureRefusal(Start(gen).nodes, b).None?
    requires PayloadOk(b.payload)
    ensures Refusal(Start(gen).nodes, rules, b).None?
  {
    var nodes := Start(gen).nodes;
    hide Id, StructureRefusal, PayloadOk, EncodePayload;
    LoneParent(nodes, Id(gen));
    if rules.validator.Some? {
      assert rules.validator.value(b).None?;
    }
    if rules.difficulty.Some? {
      assert TimesTo(nodes, Id(gen)) == [TimedWork(gen.timestamp, gen.work)];
      assert RequiredWork(nodes, rules.difficulty.value, Id(gen)) == rules.difficulty.value.minWork;
      assert OnTarget(nodes, rules.difficulty.value, b);
      RequiredWorkPasses(nodes, rules.difficulty.value, b);
    }
  }

  lemma PeerPasses(nodes: Nodes, rules: Rules, subsidy: u64, depth: nat, stored: set<BlockId>, b: Block,
                   txs: seq<Transaction>, sp: BlockId, u: Utxo)
    requires nodes != map[] && Lineages(nodes) && StructureRefusal(nodes, b).None? && Refusal(nodes, rules, b).None?
    requires HeaviestOf(nodes, b.parents) == sp && sp in stored && sp in nodes && FinalityOf(nodes, depth) == 0
    requires PreState(nodes, b.parents, sp, subsidy) == u && BlockOutcome(u, txs, subsidy).Ok?
    ensures OutcomeOf(nodes, rules, subsidy, depth, stored, b, txs) == Inserted(Id(b))
  {
    hide StructureRefusal, Refusal, PreState, BlockOutcome, FinalityOf, Score, IsHeaviest, Id;
    PassedOutcome(nodes, rules, subsidy, depth, stored, b, txs);
  }

  /** The DAG after the peer's block, and its full state. */
  lemma AfterPeer(k: nat, s: Scene, rules: Rules, depth: nat, b: Block)
    requires s.Possible() && PeerBlock(s, rules, b)
    ensures var st := Start(s.Genesis());
            var nodes, tips := WithBlock(st.nodes, k, b), WithTip(st.tips, b);
            && nodes != map[] && Lineages(nodes) && Consistent(k, Id(s.Genesis()), nodes, tips)
            && |nodes| == 2 && tips == {Id(b)} && Id(b) in nodes && nodes[Id(b)].block == b
            && HeaviestBlock(nodes) == Id(b) && FullState(nodes, s.subsidy) == s.Second()
            && HeaviestBlock(nodes) in Unpruned(nodes, {Id(s.Genesis())} + {Id(b)}, depth)
  {
    hide *;
    var gid, ib, st := Id(s.Genesis()), Id(b), Start(s.Genesis());
    PeerParts(s, rules, b);
    PeerBlockEnters(k, s, rules, depth, b);
    var nodes, tips := WithBlock(st.nodes, k, b), WithTip(st.tips, b);
    StartIs(s.Genesis(), depth);
    AcceptKeeps(k, gid, st.nodes, st.tips, b);
    NewNode(st.nodes, k, b);
    TipStateKept(k, gid, st.nodes, st.tips, b, {gid}, depth);
    OnlyTip(s.Genesis(), b);
    TipsSeeEverything(k, gid, nodes, tips, [ib]);
    LoneParent(nodes, ib);
    TipsPreState(k, gid, nodes, tips, [ib], s.subsidy);
    LonePreState(nodes, ib, s.subsidy);
    FullStateIs(nodes, s.subsidy);
    SmallCoins(s);
    PayloadRoundTrip([s.Claim()]);
    NewView(k, gid, st.nodes, st.tips, b, [s.Claim()], s.subsidy);
    Couple(gid, ib, nodes);
  }

  lemma OnlyTip(gen: Block, b: Block)
    requires b.parents == [Id(gen)] && Id(b) != Id(gen)
    ensures WithTip(Start(gen).tips, b) == {Id(b)} == Elements([Id(b)])
  {
    hide Id;
  }

  lemma Couple<K, V>(a: K, b: K, m: map<K, V>)
    requires a != b && m.Keys == {a} + {b}
    ensures |m| == 2
  {
    assert |m| == |m.Keys|;
    assert m.Keys == {a, b};
  }

  lemma ClaimAgain(s: Scene)
    requires s.Possible()
    ensures IssuanceTxs(Some(s.miner), IssuanceAt(s.subsidy, 2), s.now, 0) == [s.Claim()]
  {
    hide TxIdOf, ToLe, SigHash;
    assert 2 / HALVING_ERA == 0;
    assert Pow2(0) == 1;
  }

  lemma PaymentPicked(s: Scene)
    requires s.Possible()
    ensures var p := Picked(s.Second(), [s.Payment()], s.subsidy);
            p.selected == [s.Payment()] && OutPoint(TxIdOf(s.Claim()), 0) in p.after
    ensures FeesIn(s.Second(), [s.Payment()]) == 0
  {
    PaymentApplies(s);
    var u, tx := s.Second(), s.Payment();
    hide TxIdOf, SigHash, Regular;
    assert [tx][..0] == [];
    assert Regulars(u, [tx], 0) == Ok(Applied(u, 0));
    RegularFee(u, tx);
    assert FeesIn(u, [tx]) == FeesIn(u, []) + FeeIn(u, tx);
    assert Regulars(u, [tx], 1).Ok?;
    PaymentFee(s);
    NoCoinbase(u, [tx], s.subsidy);
    AloneIsRegular(u, tx, s.subsidy);
    assert Picked(u, [], s.subsidy) == Picks([], u);
  }

  lemma PaymentFee(s: Scene)
    requires s.Possible() && Regular(s.Second(), s.Payment()).Ok?
    ensures Regular(s.Second(), s.Payment()).value.value == 0 && s.subsidy <= U64_MAX
  {
    hide TxIdOf, SigHash, Regular;
    RegularFee(s.Second(), s.Payment());
    var u, tx := s.Second(), s.Payment();
    assert Spent(u, tx.inputs, 0) == 0;
    assert Created(tx.outputs, 0) == 0;
  }

  /** The block that the node goes for, with nonce zero. */
  ghost function NextAttempt(nodes: Nodes, rules: Rules, s: Scene, b: Block): Attempt
    requires nodes != map[] && Lineages(nodes)
  {
    var txs := [s.Claim(), s.Payment()];
    var work := match rules.difficulty case None => 1 case Some(r) => RequiredWork(nodes, r, HeaviestBlock(nodes));
    Attempt(MakeBlock([Id(b)], work, s.now, 0, EncodePayload(txs)), txs)
  }

  lemma NextAttemptIs(nodes: Nodes, tips: set<BlockId>, rules: Rules, s: Scene, b: Block)
    requires && nodes != map[] && Lineages(nodes) && |nodes| == 2 && tips == {Id(b)} && Id(b) in nodes
             && nodes[Id(b)].block == b
    requires b.timestamp < s.now && FullState(nodes, s.subsidy) == s.Second() && FeesIn(s.Second(), [s.Payment()]) == 0
    requires && IssuanceTxs(Some(s.miner), IssuanceAt(s.subsidy, 2), s.now, 0) == [s.Claim()]
             && HeaviestBlock(nodes) == Id(b)
    ensures OnTips(nodes, tips, rules, s.subsidy, Some(s.miner), s.now, [s.Payment()], NextAttempt(nodes, rules, s, b))
  {
    LoneParent(nodes, Id(b));
    hide Id, FullState, FeesIn, IssuanceTxs, IssuanceAt, HeaviestBlock, RequiredWork, EncodePayload, TxIdOf, ToLe,
         OnTips, MakeBlock, IsHeaviest;
    var txs := [s.Claim(), s.Payment()];
    assert [s.Claim()] + [s.Payment()] == txs;
    var work := match rules.difficulty case None => 1 case Some(r) => RequiredWork(nodes, r, HeaviestBlock(nodes));
    OnTipsIs(nodes, tips, rules, s.subsidy, Some(s.miner), s.now, [s.Payment()], [Id(b)], work, s.now, 0, txs);
  }

  /** The genesis and a peer's block are accepted, difficulty or not; at the time the peer has put
      in its coinbase's tag, the node goes for a block, and every such block is refused: the
      coinbase it would carry is the peer's. */
  lemma CoinbaseCanBeTaken(k: nat, s: Scene, rules: Rules, depth: nat, b: Block)
    requires s.Possible() && PeerBlock(s, rules, b)
    ensures var st := Start(s.Genesis());
            && BlockOutcome(map[], [s.Gift()], s.subsidy).Ok? && st.nodes != map[] && Lineages(st.nodes)
            && OutcomeOf(st.nodes, rules, s.subsidy, depth, {Id(s.Genesis())}, b, [s.Claim()]) == Inserted(Id(b))
    ensures var st := Start(s.Genesis());
            var nodes, tips := WithBlock(st.nodes, k, b), WithTip(st.tips, b);
            && nodes != map[] && Lineages(nodes)
            && Picked(FullState(nodes, s.subsidy), [s.Payment()], s.subsidy).selected == [s.Payment()]
            && OnTips(nodes, tips, rules, s.subsidy, Some(s.miner), s.now, [s.Payment()],
                      NextAttempt(nodes, rules, s, b))
            && forall a {:trigger OnTips(nodes, tips, rules, s.subsidy, Some(s.miner), s.now, [s.Payment()], a)} ::
                 && OnTips(nodes, tips, rules, s.subsidy, Some(s.miner), s.now, [s.Payment()], a)
                 && Id(a.block) !in nodes ==>
                   && !CoinbaseIsNew(nodes, s.subsidy, [s.Payment()], Some(s.miner), a)
                   && OutcomeOf(nodes, rules, s.subsidy, depth, Unpruned(nodes, {Id(s.Genesis())} + {Id(b)}, depth),
                                a.block, a.txs) ==
                      Refused(StateInvalid(OutputAlreadyExists(OutPoint(TxIdOf(s.Claim()), 0))))
  {
    hide *;
    PeerBlockEnters(k, s, rules, depth, b);
    AfterPeer(k, s, rules, depth, b);
    PaymentPicked(s);
    PeerParts(s, rules, b);
    ClaimAgain(s);
    var st := Start(s.Genesis());
    var nodes, tips := WithBlock(st.nodes, k, b), WithTip(st.tips, b);
    NextAttemptIs(nodes, tips, rules, s, b);
    forall a {:trigger OnTips(nodes, tips, rules, s.subsidy, Some(s.miner), s.now, [s.Payment()], a)}
      | OnTips(nodes, tips, rules, s.subsidy, Some(s.miner), s.now, [s.Payment()], a) && Id(a.block) !in nodes
      ensures !CoinbaseIsNew(nodes, s.subsidy, [s.Payment()], Some(s.miner), a)
      ensures OutcomeOf(nodes, rules, s.subsidy, depth, Unpruned(nodes, {Id(s.Genesis())} + {Id(b)}, depth), a.block,
                        a.txs) ==
              Refused(StateInvalid(OutputAlreadyExists(OutPoint(TxIdOf(s.Claim()), 0))))
    {
      AttemptRefused(k, s, rules, depth, b, a);
    }
  }

  lemma AttemptRefused(k: nat, s: Scene, rules: Rules, depth: nat, b: Block, a: Attempt)
    requires s.Possible() && PeerBlock(s, rules, b)
    requires var st := Start(s.Genesis());
             var nodes, tips := WithBlock(st.nodes, k, b), WithTip(st.tips, b);
             && nodes != map[] && Lineages(nodes)
             && OnTips(nodes, tips, rules, s.subsidy, Some(s.miner), s.now, [s.Payment()], a) && Id(a.block) !in nodes
    ensures var st := Start(s.Genesis());
            var nodes := WithBlock(st.nodes, k, b);
            && !CoinbaseIsNew(nodes, s.subsidy, [s.Payment()], Some(s.miner), a)
            && OutcomeOf(nodes, rules, s.subsidy, depth, Unpruned(nodes, {Id(s.Genesis())} + {Id(b)}, depth), a.block,
                         a.txs) ==
               Refused(StateInvalid(OutputAlreadyExists(OutPoint(TxIdOf(s.Claim()), 0))))
  {
    hide *;
    var gid, st := Id(s.Genesis()), Start(s.Genesis());
    PeerParts(s, rules, b);
    PeerBlockEnters(k, s, rules, depth, b);
    AfterPeer(k, s, rules, depth, b);
    var nodes, tips := WithBlock(st.nodes, k, b), WithTip(st.tips, b);
    PaymentPicked(s);
    PaymentApplies(s);
    ClaimAgain(s);
    AttemptShape(nodes, tips, rules, s, b, a);
    SmallCoins(s);
    SceneTotal(s);
    ClaimTaken(nodes, s, a);
    NoNameClash(nodes, s, a);
    AttemptInserted(k, gid, nodes, tips, rules, s.subsidy, depth, Unpruned(nodes, {gid} + {Id(b)}, depth),
                    [s.Payment()], Some(s.miner), s.now, a);
  }

  lemma AttemptShape(nodes: Nodes, tips: set<BlockId>, rules: Rules, s: Scene, b: Block, a: Attempt)
    requires && nodes != map[] && Lineages(nodes) && |nodes| == 2 && tips == {Id(b)} && Id(b) in nodes
             && nodes[Id(b)].block == b
    requires b.timestamp < s.now && FullState(nodes, s.subsidy) == s.Second() && FeesIn(s.Second(), [s.Payment()]) == 0
    requires OnTips(nodes, tips, rules, s.subsidy, Some(s.miner), s.now, [s.Payment()], a)
    requires IssuanceTxs(Some(s.miner), IssuanceAt(s.subsidy, 2), s.now, 0) == [s.Claim()]
    ensures a.block.timestamp == s.now && a.txs == [s.Claim(), s.Payment()]
  {
    hide Id, FullState, FeesIn, IssuanceTxs, IssuanceAt, HeaviestBlock, RequiredWork, EncodePayload, TxIdOf, ToLe;
    assert [s.Claim()] + [s.Payment()] == [s.Claim(), s.Payment()];
  }

  lemma ClaimTaken(nodes: Nodes, s: Scene, a: Attempt)
    requires && nodes != map[] && Lineages(nodes) && |nodes| == 2 && FullState(nodes, s.subsidy) == s.Second()
             && a.block.timestamp == s.now
    requires IssuanceTxs(Some(s.miner), IssuanceAt(s.subsidy, 2), s.now, 0) == [s.Claim()]
    requires var p := Picked(s.Second(), [s.Payment()], s.subsidy);
             p.selected == [s.Payment()] && OutPoint(TxIdOf(s.Claim()), 0) in p.after
    requires FeesIn(s.Second(), [s.Payment()]) == 0
    ensures !CoinbaseIsNew(nodes, s.subsidy, [s.Payment()], Some(s.miner), a)
  {
    hide FullState, FeesIn, IssuanceTxs, IssuanceAt, TxIdOf, Picked;
  }

  lemma NoNameClash(nodes: Nodes, s: Scene, a: Attempt)
    requires nodes != map[] && Lineages(nodes) && FullState(nodes, s.subsidy) == s.Second()
    requires NamesAgree(s.Second(), [s.Payment()]) && Id(a.block) !in nodes
    ensures NoCollision(nodes, s.subsidy, [s.Payment()], a)
  {
    hide FullState, NamesAgree, Id;
  }

  lemma SceneTotal(s: Scene)
    requires s.Possible()
    ensures Total(s.Second()) + s.subsidy <= U64_MAX
  {
    hide TxIdOf, SigHash, Total;
    TotalEmpty();
    TotalAdd(map[], OutPoint(TxIdOf(s.Gift()), 0), TxOutput(s.value, s.founder));
    TotalAdd(s.First(), OutPoint(TxIdOf(s.Claim()), 0), TxOutput(s.subsidy, s.miner));
  }

  // ------------------------------------------------------------------
  // Producers that stamp their coinbases with their own block's time

  /** The block `b` carries the transaction `tx`. */
  ghost predicate Carries(nodes: Nodes, b: BlockId, tx: Transaction) {
    b in nodes && TxsOf(nodes[b].block.payload).Ok? && tx in TxsOf(nodes[b].block.payload).value
  }

  /** Every coinbase has its own block's time as its tag, as `produce_block` gives it, or a tag of
      another length, as the genesis has. */
  ghost predicate HonestlyTagged(nodes: Nodes) {
    forall b, tx {:trigger Carries(nodes, b, tx)} :: Carries(nodes, b, tx) && tx.IsCoinbase() ==>
      |tx.tag| != 8 || tx.tag == ToLe(nodes[b].block.timestamp, 8)
  }

  /** No other transaction in the DAG or among the candidates has the name of `cb`. */
  ghost predicate NoTwin(nodes: Nodes, cands: seq<Transaction>, cb: Transaction) {
    && (forall b, tx {:trigger Carries(nodes, b, tx)} :: Carries(nodes, b, tx) && TxIdOf(tx) == TxIdOf(cb) ==> tx == cb)
    && (forall tx {:trigger tx in cands} :: tx in cands && TxIdOf(tx) == TxIdOf(cb) ==> tx == cb)
  }

  lemma {:induction false} RegularsOrigin(u: Utxo, txs: seq<Transaction>, n: nat, o: OutPoint)
    requires n <= |txs| && Regulars(u, txs, n).Ok? && o in Regulars(u, txs, n).value.utxo
    ensures o in u || exists tx :: tx in txs && o.tx == TxIdOf(tx)
    decreases n
  {
    hide TxIdOf, Regular;
    if n > 0 {
      var w := Regulars(u, txs, n - 1).value.utxo;
      assert txs[n - 1] in txs;
      if !txs[n - 1].IsCoinbase() {
        RegularChanges(w, txs[n - 1], o);
      }
      if o in w {
        RegularsOrigin(u, txs, n - 1, o);
      }
    }
  }

  /** Applying a block adds no output but those of its transactions. */
  lemma OutcomeOrigin(u: Utxo, txs: seq<Transaction>, subsidy: u64, o: OutPoint)
    requires BlockOutcome(u, txs, subsidy).Ok? && o in BlockOutcome(u, txs, subsidy).value.utxo
    ensures o in u || exists tx :: tx in txs && o.tx == TxIdOf(tx)
  {
    hide TxIdOf, Regulars;
    var w := Regulars(u, txs, |txs|).value.utxo;
    if txs != [] && txs[0].IsCoinbase() {
      assert txs[0] in txs;
      OutputsAddedAt(w, TxIdOf(txs[0]), txs[0].outputs, o);
    }
    if o in w {
      RegularsOrigin(u, txs, |txs|, o);
    }
  }

  lemma {:induction false} PickedOrigin(u: Utxo, cands: seq<Transaction>, subsidy: u64, o: OutPoint)
    requires o in Picked(u, cands, subsidy).after
    ensures o in u || exists tx :: tx in cands && o.tx == TxIdOf(tx)
  {
    hide TxIdOf, BlockOutcome;
    if cands != [] {
      var front, tx := cands[..|cands| - 1], cands[|cands| - 1];
      var w := Picked(u, front, subsidy).after;
      assert tx in cands;
      if BlockOutcome(w, [tx], subsidy).Ok? {
        OutcomeOrigin(w, [tx], subsidy, o);
      }
      if o in w {
        PickedOrigin(u, front, subsidy, o);
      }
    }
  }

  /** Every unspent output was created by a transaction of some block. */
  lemma {:induction false} FoldOrigin(nodes: Nodes, order: seq<BlockId>, subsidy: u64, o: OutPoint)
    returns (b: BlockId, tx: Transaction)
    requires o in Fold(nodes, order, map[], subsidy) && forall x :: x in order ==> x in nodes
    ensures Carries(nodes, b, tx) && o.tx == TxIdOf(tx)
  {
    hide TxIdOf, BlockOutcome, TxsOf;
    var front, last := order[..|order| - 1], order[|order| - 1];
    var u, payload := Fold(nodes, front, map[], subsidy), nodes[last].block.payload;
    assert last in order && PayloadAt(nodes, last) == payload;
    if o in u {
      b, tx := FoldOrigin(nodes, front, subsidy, o);
    } else {
      var txs := TxsOf(payload).value;
      OutcomeOrigin(u, txs, subsidy, o);
      b := last;
      tx :| tx in txs && o.tx == TxIdOf(tx);
    }
  }

  /** A block later than all tips is later than every block, if times never decrease. */
  lemma LaterThanAll(k: nat, genesis: BlockId, nodes: Nodes, tips: set<BlockId>, b: BlockId, t: u64)
    requires Consistent(k, genesis, nodes, tips) && TimesOrdered(nodes) && b in nodes
    requires forall p :: p in tips && p in nodes ==> nodes[p].block.timestamp < t
    ensures nodes[b].block.timestamp < t
  {
    var tip := TipAbove(k, genesis, nodes, tips, b);
    if b != tip {
      TimesAlongPast(nodes, b, tip);
    }
  }

  /** The tag of a coinbase tells its time. */
  lemma TagsDiffer(a: u64, b: u64)
    ensures |ToLe(a, 8)| == 8 && (a != b ==> ToLe(a, 8) != ToLe(b, 8))
  {
    Widths();
    ToLeLength(a, 8);
    FromToLe(a, 8);
    FromToLe(b, 8);
  }

  /** Among honestly tagged coinbases and with times that never decrease, the coinbase of a block
      on all tips is always new. */
  lemma HonestCoinbaseIsNew(k: nat, genesis: BlockId, nodes: Nodes, tips: set<BlockId>, rules: Rules, subsidy: u64,
                            cands: seq<Transaction>, miner: Option<Address>, now: u64, a: Attempt)
    requires Consistent(k, genesis, nodes, tips) && Lineages(nodes) && nodes != map[] && TimesOrdered(nodes)
    requires HonestlyTagged(nodes) && Spends(cands)
    requires OnTips(nodes, tips, rules, subsidy, miner, now, Picked(FullState(nodes, subsidy), cands, subsidy).selected,
                    a)
    requires a.txs != [] ==> NoTwin(nodes, cands, a.txs[0])
    ensures CoinbaseIsNew(nodes, subsidy, cands, miner, a)
  {
    hide *;
    var u := FullState(nodes, subsidy);
    var p := Picked(u, cands, subsidy);
    var coinbase := IssuanceTxs(miner, IssuanceAt(subsidy, |nodes|), a.block.timestamp, FeesIn(u, p.selected));
    IssuanceShape(miner, IssuanceAt(subsidy, |nodes|), a.block.timestamp, FeesIn(u, p.selected));
    OnTipsMeans(nodes, tips, rules, subsidy, miner, now, p.selected, a);
    FirstFresh(p.after, coinbase);
    NewIs(nodes, subsidy, cands, miner, a);
    if coinbase != [] && FirstOutput(coinbase[0]) in p.after {
      var o := FirstOutput(coinbase[0]);
      PickedOrigin(u, cands, subsidy, o);
      SpendsMeans(cands);
      if o in u {
        FullStateIs(nodes, subsidy);
        LinearStored(k, genesis, nodes, tips);
        FullFold(nodes, subsidy);
        var b, tx := FoldOrigin(nodes, Linearization(nodes, HeaviestBlock(nodes)), subsidy, o);
        EarlierClaim(k, genesis, nodes, tips, cands, b, tx, coinbase[0], a.block.timestamp);
      } else {
        var tx :| tx in cands && o.tx == TxIdOf(tx);
        TwinIs(nodes, cands, coinbase[0], tx);
      }
    }
  }

  function FirstOutput(tx: Transaction): (o: OutPoint)
    ensures o.tx == TxIdOf(tx)
  {
    OutPoint(TxIdOf(tx), 0)
  }

  lemma FirstFresh(w: Utxo, coinbase: seq<Transaction>)
    ensures FreshCoinbase(w, coinbase) <==> coinbase == [] || FirstOutput(coinbase[0]) !in w
  {
    hide TxIdOf;
  }

  lemma OnTipsMeans(nodes: Nodes, tips: set<BlockId>, rules: Rules, subsidy: u64, miner: Option<Address>, now: u64,
                    selected: seq<Transaction>, a: Attempt)
    requires Lineages(nodes) && nodes != map[] && OnTips(nodes, tips, rules, subsidy, miner, now, selected, a)
    ensures forall p :: p in tips && p in nodes ==> nodes[p].block.timestamp < a.block.timestamp
    ensures a.txs == IssuanceTxs(miner, IssuanceAt(subsidy, |nodes|), a.block.timestamp,
                                 FeesIn(FullState(nodes, subsidy), selected)) + selected
  {
    hide IssuanceTxs, FeesIn, FullState, RequiredWork, HeaviestBlock, EncodePayload;
  }

  lemma NewIs(nodes: Nodes, subsidy: u64, cands: seq<Transaction>, miner: Option<Address>, a: Attempt)
    requires Lineages(nodes) && nodes != map[]
    ensures var u := FullState(nodes, subsidy);
            var p := Picked(u, cands, subsidy);
            CoinbaseIsNew(nodes, subsidy, cands, miner, a) <==>
              FreshCoinbase(p.after,
                            IssuanceTxs(miner, IssuanceAt(subsidy, |nodes|), a.block.timestamp, FeesIn(u, p.selected)))
  {
    hide FullState, Picked, IssuanceTxs, FeesIn, FreshCoinbase;
  }

  lemma FullFold(nodes: Nodes, subsidy: u64)
    requires && Lineages(nodes) && nodes != map[]
             && forall b :: b in Linearization(nodes, HeaviestBlock(nodes)) ==> b in nodes
    ensures FullState(nodes, subsidy) == Fold(nodes, Linearization(nodes, HeaviestBlock(nodes)), map[], subsidy)
  {
    hide Fold, AcceptedIn, RejectedIn, Linearization, HeaviestBlock;
  }

  lemma TwinIs(nodes: Nodes, cands: seq<Transaction>, cb: Transaction, tx: Transaction)
    requires NoTwin(nodes, cands, cb) && tx in cands && TxIdOf(tx) == TxIdOf(cb)
    ensures tx == cb
  {
    hide TxIdOf;
  }

  /** A coinbase stamped later than all tips is named like no transaction of the DAG. */
  lemma EarlierClaim(k: nat, genesis: BlockId, nodes: Nodes, tips: set<BlockId>, cands: seq<Transaction>, b: BlockId,
                     tx: Transaction, cb: Transaction, t: u64)
    requires && Consistent(k, genesis, nodes, tips) && TimesOrdered(nodes) && HonestlyTagged(nodes)
             && NoTwin(nodes, cands, cb)
    requires Carries(nodes, b, tx) && cb.IsCoinbase() && cb.tag == ToLe(t, 8)
    requires forall p :: p in tips && p in nodes ==> nodes[p].block.timestamp < t
    ensures TxIdOf(tx) != TxIdOf(cb)
  {
    hide TxIdOf, ToLe, TxsOf, Consistent, TimesOrdered;
    LaterThanAll(k, genesis, nodes, tips, b, t);
    TagsDiffer(t, nodes[b].block.timestamp);
  }

  /** With difficulty enforced from the genesis on, a producer among honest producers always gets
      its block in. */
  lemma HonestBlockEnters(k: nat, rules: Rules, gen: Block, blocks: seq<Block>, subsidy: u64, depth: nat,
                          stored: set<BlockId>, cands: seq<Transaction>, miner: Option<Address>, now: u64, a: Attempt)
    requires rules.difficulty.Some? && (rules.validator.Some? ==> Structural(rules.validator.value))
    requires rules.requirePow ==> Pow.IsMined(a.block)
    requires var nodes, tips := Run(k, rules, gen, blocks).nodes, Run(k, rules, gen, blocks).tips;
             && nodes != map[] && HeaviestBlock(nodes) in stored && HonestlyTagged(nodes)
             && Spends(cands) && Total(FullState(nodes, subsidy)) + subsidy <= U64_MAX
             && OnTips(nodes, tips, rules, subsidy, miner, now,
                       Picked(FullState(nodes, subsidy), cands, subsidy).selected, a)
             && NoCollision(nodes, subsidy, cands, a) && AllEncodable(a.txs)
             && (a.txs != [] ==> NoTwin(nodes, cands, a.txs[0]))
    ensures OutcomeOf(Run(k, rules, gen, blocks).nodes, rules, subsidy, depth, stored, a.block, a.txs) ==
            Inserted(Id(a.block))
  {
    hide *;
    var st := Run(k, rules, gen, blocks);
    RunTimesOrdered(k, rules, gen, blocks);
    HonestCoinbaseIsNew(k, Id(gen), st.nodes, st.tips, rules, subsidy, cands, miner, now, a);
    AttemptInserted(k, Id(gen), st.nodes, st.tips, rules, subsidy, depth, stored, cands, miner, now, a);
  }
}
