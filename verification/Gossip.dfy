/** Continuous gossip between named nodes: what a flood reaches, and why it ends. */
module Gossip {
  import opened Types
  import opened Graphs
  import opened Blocks
  import opened Transactions

  type Name = string
  type Peers = map<Name, set<Name>>

  /** The wire form of a block. */
  datatype BlockRecord = BlockRecord(parents: seq<BlockId>, work: u128, timestamp: u64, nonce: u64,
                                     txs: seq<Transaction>)

  function RecordId(r: BlockRecord): BlockId {
    Id(MakeBlock(r.parents, r.work, r.timestamp, r.nonce, EncodePayload(r.txs)))
  }

  datatype Envelope = Hello(advertised: seq<Name>) | BlockMsg(record: BlockRecord) | TxMsg(tx: Transaction)

  datatype Queued = Queued(due: nat, sender: Name, to: Name, envelope: Envelope)

  datatype GossipKind = HelloEvent | BlockEvent | TxEvent

  datatype GossipEvent = GossipEvent(at: nat, sender: Name, to: Name, kind: GossipKind)

  /** What the nodes know: their peers, and the blocks and transactions each has seen. */
  datatype Net = Net(nodes: set<Name>, peers: Peers, seenBlocks: map<Name, set<BlockId>>, seenTxs: map<Name, set<TxId>>)

  // ------------------------------------------------------------------
  // Invariants of the messages in flight

  ghost predicate Known(net: Net) {
    && net.peers.Keys == net.nodes && net.seenBlocks.Keys == net.nodes && net.seenTxs.Keys == net.nodes
    && forall n {:trigger net.peers[n]} :: n in net.nodes ==> net.peers[n] <= net.nodes
  }

  /** A message runs between two different nodes, and its sender has seen what it carries. */
  ghost predicate Vouched(net: Net, q: Queued) {
    && q.sender in net.nodes && q.to in net.nodes && q.sender != q.to
    && (q.envelope.BlockMsg? ==> q.sender in net.seenBlocks && RecordId(q.envelope.record) in net.seenBlocks[q.sender])
    && (q.envelope.TxMsg? ==> q.sender in net.seenTxs && TxIdOf(q.envelope.tx) in net.seenTxs[q.sender])
  }

  ghost predicate AllVouched(net: Net, flight: seq<Queued>) {
    forall q {:trigger Vouched(net, q)} :: q in flight ==> Vouched(net, q)
  }

  ghost predicate Waiting(flight: seq<Queued>, m: Name, x: TxId) {
    exists q :: q in flight && q.to == m && q.envelope.TxMsg? && TxIdOf(q.envelope.tx) == x
  }

  ghost predicate BlockWaiting(flight: seq<Queued>, m: Name, b: BlockId) {
    exists q :: q in flight && q.to == m && q.envelope.BlockMsg? && RecordId(q.envelope.record) == b
  }

  /** A node that has seen `x` has passed it along its edge to `m`, or it is on its way there. */
  ghost predicate Passed(net: Net, graph: Peers, x: TxId, flight: seq<Queued>, n: Name, m: Name) {
    n in net.seenTxs && x in net.seenTxs[n] && n in graph && m in graph[n] && m in net.seenTxs ==>
      x in net.seenTxs[m] || Waiting(flight, m, x)
  }

  ghost predicate Spend(q: Queued, x: TxId) {
    q.envelope.TxMsg? && TxIdOf(q.envelope.tx) == x ==> !q.envelope.tx.IsCoinbase()
  }

  /** The flood of transaction `x` over the edges of `graph`, which the nodes still have. */
  ghost predicate Flooding(net: Net, graph: Peers, x: TxId, flight: seq<Queued>) {
    && (forall n, m {:trigger Passed(net, graph, x, flight, n, m)} :: Passed(net, graph, x, flight, n, m))
    && (forall n :: n in graph ==> n in net.peers && graph[n] <= net.peers[n])
    && (forall q {:trigger Spend(q, x)} :: q in flight ==> Spend(q, x))
  }

  /** Node `n` has accepted block `b` and relayed it to `m`. */
  datatype Relay = Relay(n: Name, b: BlockId, m: Name)

  ghost predicate Honoured(net: Net, flight: seq<Queued>, r: Relay) {
    r.m in net.seenBlocks && (r.b in net.seenBlocks[r.m] || BlockWaiting(flight, r.m, r.b))
  }

  ghost predicate AllHonoured(net: Net, flight: seq<Queued>, relays: set<Relay>) {
    forall r {:trigger Honoured(net, flight, r)} :: r in relays ==> Honoured(net, flight, r)
  }

  // ------------------------------------------------------------------
  // The measure

  /** The blocks, and the transactions, that some node has seen. */
  ghost function SeenBlocks(net: Net): set<BlockId> {
    set n, b | n in net.seenBlocks && b in net.seenBlocks[n] :: b
  }

  ghost function SeenTxs(net: Net): set<TxId> {
    set n, x | n in net.seenTxs && x in net.seenTxs[n] :: x
  }

  ghost function MissingEdges(net: Net): set<(Name, Name)> {
    set n, m | n in net.nodes && m in net.nodes && n != m && (n !in net.peers || m !in net.peers[n]) :: (n, m)
  }

  /** The pairs of a node and an item that another node has seen but it has not. */
  ghost function UnseenBlocks(net: Net): set<(Name, BlockId)> {
    set n, b | n in net.nodes && b in SeenBlocks(net) && (n !in net.seenBlocks || b !in net.seenBlocks[n]) :: (n, b)
  }

  ghost function UnseenTxs(net: Net): set<(Name, TxId)> {
    set n, x | n in net.nodes && x in SeenTxs(net) && (n !in net.seenTxs || x !in net.seenTxs[n]) :: (n, x)
  }

  /** The most deliveries that can still happen: every missing edge can bring one hello, every
      unseen item one message for each node, and the messages in flight count themselves. */
  ghost function Left(net: Net, flight: seq<Queued>): nat {
    |MissingEdges(net)| + |net.nodes| * (|UnseenBlocks(net)| + |UnseenTxs(net)|) + |flight|
  }

  ghost function SeeBlock(net: Net, n: Name, b: BlockId): Net
    requires n in net.seenBlocks
  {
    net.(seenBlocks := net.seenBlocks[n := net.seenBlocks[n] + {b}])
  }

  ghost function SeeTx(net: Net, n: Name, x: TxId): Net
    requires n in net.seenTxs
  {
    net.(seenTxs := net.seenTxs[n := net.seenTxs[n] + {x}])
  }

  ghost function AddEdges(net: Net, n: Name, ms: set<Name>): Net
    requires n in net.peers
  {
    net.(peers := net.peers[n := net.peers[n] + ms])
  }

  lemma EdgesAdded(net: Net, n: Name, ms: set<Name>)
    requires Known(net) && n in net.nodes && ms <= net.nodes && n !in ms && ms !! net.peers[n]
    ensures Known(AddEdges(net, n, ms))
    ensures |MissingEdges(AddEdges(net, n, ms))| == |MissingEdges(net)| - |ms|
    ensures UnseenBlocks(AddEdges(net, n, ms)) == UnseenBlocks(net)
    ensures UnseenTxs(AddEdges(net, n, ms)) == UnseenTxs(net)
  {
    var pairs := set m | m in ms :: (n, m);
    PairsCount(n, ms);
    assert MissingEdges(AddEdges(net, n, ms)) == MissingEdges(net) - pairs;
    assert pairs <= MissingEdges(net);
    assert SeenBlocks(AddEdges(net, n, ms)) == SeenBlocks(net);
    assert SeenTxs(AddEdges(net, n, ms)) == SeenTxs(net);
  }

  lemma PairsCount(n: Name, ms: set<Name>)
    ensures |set m | m in ms :: (n, m)| == |ms|
    decreases ms
  {
    var pairs := set m | m in ms :: (n, m);
    if ms == {} {
      assert pairs == {};
    } else {
      var k :| k in ms;
      PairsCount(n, ms - {k});
      assert pairs == (set m | m in ms - {k} :: (n, m)) + {(n, k)};
    }
  }

  lemma BlockSeen(net: Net, n: Name, b: BlockId)
    requires Known(net) && n in net.nodes && b in SeenBlocks(net) && b !in net.seenBlocks[n]
    ensures && Known(SeeBlock(net, n, b)) && SeeBlock(net, n, b).nodes == net.nodes
            && MissingEdges(SeeBlock(net, n, b)) == MissingEdges(net)
    ensures |UnseenBlocks(SeeBlock(net, n, b))| == |UnseenBlocks(net)| - 1
    ensures UnseenTxs(SeeBlock(net, n, b)) == UnseenTxs(net)
  {
    var after := SeeBlock(net, n, b);
    forall c | c in SeenBlocks(net) ensures c in SeenBlocks(after) {
      var p :| p in net.seenBlocks && c in net.seenBlocks[p];
      assert p in after.seenBlocks && c in after.seenBlocks[p];
    }
    assert (n, b) in UnseenBlocks(net) && SeenBlocks(after) == SeenBlocks(net);
    assert SeenTxs(SeeBlock(net, n, b)) == SeenTxs(net);
    hide SeenBlocks, SeenTxs;
    assert UnseenBlocks(SeeBlock(net, n, b)) == UnseenBlocks(net) - {(n, b)};
  }

  lemma TxSeen(net: Net, n: Name, x: TxId)
    requires Known(net) && n in net.nodes && x in SeenTxs(net) && x !in net.seenTxs[n]
    ensures && Known(SeeTx(net, n, x)) && SeeTx(net, n, x).nodes == net.nodes
            && MissingEdges(SeeTx(net, n, x)) == MissingEdges(net)
    ensures |UnseenTxs(SeeTx(net, n, x))| == |UnseenTxs(net)| - 1
    ensures UnseenBlocks(SeeTx(net, n, x)) == UnseenBlocks(net)
  {
    var after := SeeTx(net, n, x);
    forall y | y in SeenTxs(net) ensures y in SeenTxs(after) {
      var p :| p in net.seenTxs && y in net.seenTxs[p];
      assert p in after.seenTxs && y in after.seenTxs[p];
    }
    assert (n, x) in UnseenTxs(net) && SeenTxs(after) == SeenTxs(net);
    assert SeenBlocks(SeeTx(net, n, x)) == SeenBlocks(net);
    hide SeenBlocks, SeenTxs;
    assert UnseenTxs(SeeTx(net, n, x)) == UnseenTxs(net) - {(n, x)};
  }

  // ------------------------------------------------------------------
  // Messages one step sends

  /** `sent` goes from `n` to each node of `targets` exactly, carrying `e`. */
  ghost predicate SentTo(sent: seq<Queued>, n: Name, targets: set<Name>, e: Envelope, due: nat) {
    && |sent| <= |targets|
    && (forall q :: q in sent ==> q.sender == n && q.to in targets && q.envelope == e && q.due == due)
    && (forall m :: m in targets ==> exists q :: q in sent && q.to == m)
  }

  /** One hello from `n` to each node of `targets` exactly, advertising `known`. */
  ghost predicate Greeted(sent: seq<Queued>, n: Name, targets: set<Name>, known: set<Name>, due: nat) {
    && |sent| <= |targets|
    && (forall q :: q in sent ==> q.sender == n && q.to in targets && q.envelope.Hello? && q.due == due)
    && (forall q :: q in sent ==> q.envelope.Hello? && forall m :: m in q.envelope.advertised <==> m in known)
    && (forall m :: m in targets ==> exists q :: q in sent && q.to == m)
  }

  lemma MoreSent(sent: seq<Queued>, n: Name, targets: set<Name>, e: Envelope, due: nat, m: Name)
    requires SentTo(sent, n, targets, e, due) && m !in targets
    ensures SentTo(sent + [Queued(due, n, m, e)], n, targets + {m}, e, due)
  {
    var q := Queued(due, n, m, e);
    assert |targets + {m}| == |targets| + 1;
    forall t | t in targets + {m} ensures exists p :: p in sent + [q] && p.to == t {
      if t == m {
        assert q in sent + [q];
      } else {
        var p :| p in sent && p.to == t;
        assert p in sent + [q];
      }
    }
  }

  lemma MoreGreeted(sent: seq<Queued>, n: Name, targets: set<Name>, known: set<Name>, due: nat, q: Queued)
    requires Greeted(sent, n, targets, known, due) && q.to !in targets
    requires && q.sender == n && q.due == due && q.envelope.Hello?
             && forall m :: m in q.envelope.advertised <==> m in known
    ensures Greeted(sent + [q], n, targets + {q.to}, known, due)
  {
    assert |targets + {q.to}| == |targets| + 1;
    forall t | t in targets + {q.to} ensures exists p :: p in sent + [q] && p.to == t {
      if t == q.to {
        assert q in sent + [q];
      } else {
        var p :| p in sent && p.to == t;
        assert p in sent + [q];
      }
    }
  }

  lemma Addressee(sent: seq<Queued>, n: Name, targets: set<Name>, e: Envelope, due: nat, m: Name) returns (p: Queued)
    requires SentTo(sent, n, targets, e, due) && m in targets
    ensures p in sent && p.to == m && p.sender == n && p.envelope == e
  {
    p :| p in sent && p.to == m;
  }

  /** The messages carry `e` from `n`, and go to exactly these nodes. */
  ghost predicate Onward(sent: seq<Queued>, n: Name, e: Envelope, targets: set<Name>) {
    && (forall s :: s in sent ==> s.envelope == e && s.sender == n)
    && forall m :: (exists s :: s in sent && s.to == m) <==> m in targets
  }

  lemma SentMeans(sent: seq<Queued>, n: Name, targets: set<Name>, e: Envelope, due: nat)
    requires SentTo(sent, n, targets, e, due)
    ensures Onward(sent, n, e, targets)
  {
  }

  lemma StillWaiting(flight: seq<Queued>, flight': seq<Queued>, m: Name, x: TxId)
    requires && Waiting(flight, m, x)
             && forall q :: q in flight && q.to == m && q.envelope.TxMsg? && TxIdOf(q.envelope.tx) == x ==> q in flight'
    ensures Waiting(flight', m, x)
  {
    var q :| q in flight && q.to == m && q.envelope.TxMsg? && TxIdOf(q.envelope.tx) == x;
    assert q in flight';
  }

  lemma BlockStillWaiting(flight: seq<Queued>, flight': seq<Queued>, m: Name, b: BlockId)
    requires && BlockWaiting(flight, m, b)
             && forall q ::
                  q in flight && q.to == m && q.envelope.BlockMsg? && RecordId(q.envelope.record) == b ==> q in flight'
    ensures BlockWaiting(flight', m, b)
  {
    var q :| q in flight && q.to == m && q.envelope.BlockMsg? && RecordId(q.envelope.record) == b;
    assert q in flight';
  }

  // ------------------------------------------------------------------
  // Everything that must hold of the messages in flight

  ghost predicate Sound(net: Net, flight: seq<Queued>, relays: set<Relay>) {
    Known(net) && AllVouched(net, flight) && AllHonoured(net, flight, relays)
  }

  /** What delivering a transaction does: a node that has seen it ignores it, one that refuses
      it (a coinbase) only remembers it, any other passes it on to every peer but the sender. */
  ghost predicate TxStep(net: Net, q: Queued, net': Net, sent: seq<Queued>, due: nat)
    requires Known(net) && q.to in net.nodes && q.envelope.TxMsg?
  {
    var x := TxIdOf(q.envelope.tx);
    if x in net.seenTxs[q.to] then net' == net && sent == []
    else
      && net' == SeeTx(net, q.to, x)
      && (if q.envelope.tx.IsCoinbase() then sent == []
          else SentTo(sent, q.to, net.peers[q.to] - {q.sender, q.to}, q.envelope, due))
  }

  /** The same for a block, which the node accepts or refuses on its own grounds. */
  ghost predicate BlockStep(net: Net, q: Queued, accepted: bool, net': Net, sent: seq<Queued>, due: nat)
    requires Known(net) && q.to in net.nodes && q.envelope.BlockMsg?
  {
    var b := RecordId(q.envelope.record);
    if b in net.seenBlocks[q.to] then net' == net && sent == []
    else
      && net' == SeeBlock(net, q.to, b)
      && (if !accepted then sent == []
          else SentTo(sent, q.to, net.peers[q.to] - {q.sender, q.to}, q.envelope, due))
  }

  /** The nodes a hello names to its receiver: the sender and whoever it advertises. */
  ghost function Invited(nodes: set<Name>, to: Name, sender: Name, advertised: seq<Name>): set<Name> {
    ({sender} + set m | m in advertised && m in nodes) - {to}
  }

  /** Those of them that are not yet its peers. */
  ghost function Learned(net: Net, q: Queued): set<Name>
    requires Known(net) && q.to in net.nodes && q.envelope.Hello?
  {
    Invited(net.nodes, q.to, q.sender, q.envelope.advertised) - net.peers[q.to]
  }

  /** A hello adds an edge to each node learned, and greets it with the peers now known. */
  ghost predicate HelloStep(net: Net, q: Queued, net': Net, sent: seq<Queued>, due: nat)
    requires Known(net) && q.to in net.nodes && q.envelope.Hello?
  {
    && net' == AddEdges(net, q.to, Learned(net, q))
    && Greeted(sent, q.to, Learned(net, q), net.peers[q.to] + Learned(net, q), due)
  }

  lemma TxDelivered(net: Net, q: Queued, rest: seq<Queued>, relays: set<Relay>, net': Net, sent: seq<Queued>, due: nat)
    requires Sound(net, [q] + rest, relays) && q.to in net.nodes && q.envelope.TxMsg? && TxStep(net, q, net', sent, due)
    ensures Sound(net', rest + sent, relays)
  {
    hide TxIdOf, RecordId;
    assert q in [q] + rest;
    assert Vouched(net, q);
    forall p | p in rest + sent ensures Vouched(net', p) {
      if p in rest {
        assert p in [q] + rest;
        assert Vouched(net, p);
      }
    }
    forall r | r in relays ensures Honoured(net', rest + sent, r) {
      assert Honoured(net, [q] + rest, r);
      if r.b !in net.seenBlocks[r.m] {
        BlockStillWaiting([q] + rest, rest + sent, r.m, r.b);
      }
    }
  }

  lemma LeftIs(net: Net, flight: seq<Queued>, unseen: nat)
    requires unseen == |UnseenBlocks(net)| + |UnseenTxs(net)|
    ensures Left(net, flight) == |MissingEdges(net)| + |net.nodes| * unseen + |flight|
  {
  }

  lemma OneMore(q: Queued, rest: seq<Queued>, sent: seq<Queued>)
    ensures |rest + sent| == |rest| + |sent| && |[q] + rest| == 1 + |rest|
  {
  }

  /** A transaction step changes nothing, or shows the receiver a transaction that the sender
      has seen and sends at most one message for each node. */
  lemma TxStepShows(net: Net, q: Queued, net': Net, sent: seq<Queued>, due: nat)
    requires Known(net) && Vouched(net, q) && q.envelope.TxMsg? && TxStep(net, q, net', sent, due)
    ensures (net' == net && sent == []) || (q.to in net.nodes && TxIdOf(q.envelope.tx) in SeenTxs(net)
            && TxIdOf(q.envelope.tx) !in net.seenTxs[q.to] && net' == SeeTx(net, q.to, TxIdOf(q.envelope.tx))
            && |sent| <= |net.nodes|)
  {
    hide TxIdOf, RecordId;
    FewTargets(net, q.to, {q.sender, q.to});
  }

  lemma TxLessLeft(net: Net, q: Queued, rest: seq<Queued>, net': Net, sent: seq<Queued>, due: nat)
    requires Known(net) && Vouched(net, q) && q.envelope.TxMsg? && TxStep(net, q, net', sent, due)
    ensures Left(net', rest + sent) < Left(net, [q] + rest)
  {
    hide *;
    OneMore(q, rest, sent);
    var unseen := |UnseenBlocks(net)| + |UnseenTxs(net)|;
    LeftIs(net, [q] + rest, unseen);
    TxStepShows(net, q, net', sent, due);
    if net' == net && sent == [] {
      LeftIs(net', rest + sent, unseen);
    } else {
      TxSeen(net, q.to, TxIdOf(q.envelope.tx));
      Product(|net.nodes|, unseen, |sent|);
      LeftIs(net', rest + sent, unseen - 1);
    }
  }

  /** The flood of any transaction goes on when a transaction is delivered. */
  lemma TxFloods(net: Net, q: Queued, rest: seq<Queued>, relays: set<Relay>, net': Net, sent: seq<Queued>, due: nat,
                 graph: Peers, x: TxId)
    requires Sound(net, [q] + rest, relays) && q.to in net.nodes && q.envelope.TxMsg? && TxStep(net, q, net', sent, due)
    requires Flooding(net, graph, x, [q] + rest)
    ensures Flooding(net', graph, x, rest + sent)
  {
    hide TxIdOf, RecordId;
    assert q in [q] + rest;
    assert Vouched(net, q) && Spend(q, x);
    forall p | p in rest + sent ensures Spend(p, x) {
      assert p in rest ==> p in [q] + rest && Spend(p, x);
    }
    forall n, m ensures Passed(net', graph, x, rest + sent, n, m) {
      TxPasses(net, q, rest, net', sent, due, graph, x, n, m);
    }
  }

  lemma TxPasses(net: Net, q: Queued, rest: seq<Queued>, net': Net, sent: seq<Queued>, due: nat, graph: Peers, x: TxId,
                 n: Name, m: Name)
    requires Known(net) && Vouched(net, q) && Spend(q, x) && q.envelope.TxMsg? && TxStep(net, q, net', sent, due)
    requires Passed(net, graph, x, [q] + rest, n, m) && (n in graph ==> n in net.peers && graph[n] <= net.peers[n])
    ensures Passed(net', graph, x, rest + sent, n, m)
  {
    hide TxIdOf;
    if && n in net'.seenTxs && x in net'.seenTxs[n] && n in graph && m in graph[n]
       && m in net'.seenTxs && x !in net'.seenTxs[m]
    {
      if x in net.seenTxs[n] {
        StillWaiting([q] + rest, rest + sent, m, x);
      } else {
        assert n == q.to && x == TxIdOf(q.envelope.tx) && m in net.peers[q.to];
        assert m != q.sender && m != q.to;
        var p := Addressee(sent, q.to, net.peers[q.to] - {q.sender, q.to}, q.envelope, due, m);
        assert p in rest + sent;
      }
    }
  }

  lemma BlockDelivered(net: Net, q: Queued, rest: seq<Queued>, relays: set<Relay>, accepted: bool, net': Net,
                       sent: seq<Queued>, due: nat, relays': set<Relay>)
    requires && Sound(net, [q] + rest, relays) && q.to in net.nodes && q.envelope.BlockMsg?
             && BlockStep(net, q, accepted, net', sent, due)
    requires var b := RecordId(q.envelope.record);
             relays' == relays + if b !in net.seenBlocks[q.to] && accepted
                                 then set m | m in net.peers[q.to] :: Relay(q.to, b, m) else {}
    ensures Sound(net', rest + sent, relays')
  {
    hide TxIdOf, RecordId;
    assert q in [q] + rest;
    assert Vouched(net, q);
    forall p | p in rest + sent ensures Vouched(net', p) {
      if p in rest {
        assert p in [q] + rest;
        assert Vouched(net, p);
      }
    }
    forall r | r in relays' ensures Honoured(net', rest + sent, r) {
      if r in relays {
        assert Honoured(net, [q] + rest, r);
        if r.b !in net'.seenBlocks[r.m] {
          BlockStillWaiting([q] + rest, rest + sent, r.m, r.b);
        }
      } else if r.m != q.sender && r.m != q.to {
        var p := Addressee(sent, q.to, net.peers[q.to] - {q.sender, q.to}, q.envelope, due, r.m);
        assert p in rest + sent;
      }
    }
  }

  lemma BlockStepShows(net: Net, q: Queued, accepted: bool, net': Net, sent: seq<Queued>, due: nat)
    requires Known(net) && Vouched(net, q) && q.envelope.BlockMsg? && BlockStep(net, q, accepted, net', sent, due)
    ensures (net' == net && sent == []) || (q.to in net.nodes && RecordId(q.envelope.record) in SeenBlocks(net)
            && RecordId(q.envelope.record) !in net.seenBlocks[q.to]
            && net' == SeeBlock(net, q.to, RecordId(q.envelope.record))
            && |sent| <= |net.nodes|)
  {
    hide TxIdOf, RecordId;
    FewTargets(net, q.to, {q.sender, q.to});
  }

  lemma BlockLessLeft(net: Net, q: Queued, rest: seq<Queued>, accepted: bool, net': Net, sent: seq<Queued>, due: nat)
    requires Known(net) && Vouched(net, q) && q.envelope.BlockMsg? && BlockStep(net, q, accepted, net', sent, due)
    ensures Left(net', rest + sent) < Left(net, [q] + rest)
  {
    hide *;
    OneMore(q, rest, sent);
    var unseen := |UnseenBlocks(net)| + |UnseenTxs(net)|;
    LeftIs(net, [q] + rest, unseen);
    BlockStepShows(net, q, accepted, net', sent, due);
    if net' == net && sent == [] {
      LeftIs(net', rest + sent, unseen);
    } else {
      BlockSeen(net, q.to, RecordId(q.envelope.record));
      Product(|net.nodes|, unseen, |sent|);
      LeftIs(net', rest + sent, unseen - 1);
    }
  }

  /** Nor do blocks and hellos disturb the flood of a transaction. */
  lemma OthersFlood(net: Net, q: Queued, rest: seq<Queued>, net': Net, sent: seq<Queued>, graph: Peers, x: TxId)
    requires Flooding(net, graph, x, [q] + rest) && !q.envelope.TxMsg? && (forall p :: p in sent ==> !p.envelope.TxMsg?)
    requires && net'.seenTxs == net.seenTxs
             && forall n :: n in net.peers ==> n in net'.peers && net.peers[n] <= net'.peers[n]
    ensures Flooding(net', graph, x, rest + sent)
  {
    hide TxIdOf;
    forall p | p in rest + sent ensures Spend(p, x) {
      assert p in rest ==> p in [q] + rest && Spend(p, x);
    }
    forall n, m ensures Passed(net', graph, x, rest + sent, n, m) {
      assert Passed(net, graph, x, [q] + rest, n, m);
      if Waiting([q] + rest, m, x) {
        StillWaiting([q] + rest, rest + sent, m, x);
      }
    }
  }

  lemma HelloStepShows(net: Net, q: Queued, net': Net, sent: seq<Queued>, due: nat)
    requires Known(net) && Vouched(net, q) && q.envelope.Hello? && HelloStep(net, q, net', sent, due)
    ensures net' == AddEdges(net, q.to, Learned(net, q)) && |sent| <= |Learned(net, q)|
    ensures && Learned(net, q) <= net.nodes && q.to in net.nodes && q.to !in Learned(net, q)
            && Learned(net, q) !! net.peers[q.to]
    ensures net'.nodes == net.nodes
    ensures forall p :: p in sent ==> p.sender == q.to && p.to in Learned(net, q) && p.envelope.Hello?
    ensures net'.seenTxs == net.seenTxs && net'.seenBlocks == net.seenBlocks && Known(net')
  {
    hide TxIdOf, RecordId;
    EdgesAdded(net, q.to, Learned(net, q));
  }

  lemma HelloDelivered(net: Net, q: Queued, rest: seq<Queued>, relays: set<Relay>, net': Net, sent: seq<Queued>,
                       due: nat)
    requires && Sound(net, [q] + rest, relays) && q.to in net.nodes && q.envelope.Hello?
             && HelloStep(net, q, net', sent, due)
    ensures Sound(net', rest + sent, relays)
  {
    hide TxIdOf, RecordId, HelloStep, Learned, Invited, AddEdges;
    assert q in [q] + rest;
    assert Vouched(net, q);
    HelloStepShows(net, q, net', sent, due);
    forall p | p in rest + sent ensures Vouched(net', p) {
      if p in rest {
        assert p in [q] + rest;
        assert Vouched(net, p);
      }
    }
    forall r | r in relays ensures Honoured(net', rest + sent, r) {
      assert Honoured(net, [q] + rest, r);
      if r.b !in net.seenBlocks[r.m] {
        BlockStillWaiting([q] + rest, rest + sent, r.m, r.b);
      }
    }
  }

  lemma HelloLessLeft(net: Net, q: Queued, rest: seq<Queued>, net': Net, sent: seq<Queued>, due: nat)
    requires Known(net) && Vouched(net, q) && q.envelope.Hello? && HelloStep(net, q, net', sent, due)
    ensures Left(net', rest + sent) < Left(net, [q] + rest)
  {
    hide *;
    OneMore(q, rest, sent);
    HelloStepShows(net, q, net', sent, due);
    EdgesAdded(net, q.to, Learned(net, q));
    LeftIs(net, [q] + rest, |UnseenBlocks(net)| + |UnseenTxs(net)|);
    LeftIs(net', rest + sent, |UnseenBlocks(net)| + |UnseenTxs(net)|);
  }

  lemma FewTargets(net: Net, n: Name, except: set<Name>)
    requires Known(net) && n in net.nodes
    ensures |net.peers[n] - except| <= |net.nodes|
  {
    SubsetCardinality(net.peers[n] - except, net.nodes);
  }
  lemma Product(n: nat, unseen: nat, sent: nat)
    requires unseen > 0 && sent <= n
    ensures n * (unseen - 1) + sent <= n * unseen
  {
    assert n * unseen == n * (unseen - 1) + n;
  }

  // ------------------------------------------------------------------
  // Floods, and one delivery of any kind

  /** A flood: transaction `x`, announced at `origin` while the peer graph was `graph`. */
  datatype Flood = Flood(graph: Peers, origin: Name, x: TxId)

  ghost predicate Floods(net: Net, flight: seq<Queued>, f: Flood) {
    f.origin in net.seenTxs && f.x in net.seenTxs[f.origin] && Flooding(net, f.graph, f.x, flight)
  }

  ghost predicate AllFlooding(net: Net, flight: seq<Queued>, floods: set<Flood>) {
    forall f {:trigger Floods(net, flight, f)} :: f in floods ==> Floods(net, flight, f)
  }

  ghost predicate Intact(net: Net, flight: seq<Queued>, relays: set<Relay>, floods: set<Flood>) {
    Sound(net, flight, relays) && AllFlooding(net, flight, floods)
  }

  ghost predicate Step(net: Net, q: Queued, accepted: bool, net': Net, sent: seq<Queued>, due: nat)
    requires Known(net) && q.to in net.nodes
  {
    match q.envelope
    case Hello(_) => HelloStep(net, q, net', sent, due)
    case BlockMsg(_) => BlockStep(net, q, accepted, net', sent, due)
    case TxMsg(_) => TxStep(net, q, net', sent, due)
  }

  /** Whatever is delivered, no node forgets an item or a peer. */
  lemma StepSeen(net: Net, q: Queued, accepted: bool, net': Net, sent: seq<Queued>, due: nat)
    requires Known(net) && Vouched(net, q) && q.to in net.nodes && Step(net, q, accepted, net', sent, due)
    ensures forall n :: n in net.seenTxs ==> n in net'.seenTxs && net.seenTxs[n] <= net'.seenTxs[n]
    ensures forall n :: n in net.peers ==> n in net'.peers && net.peers[n] <= net'.peers[n]
    ensures !q.envelope.TxMsg? ==> net'.seenTxs == net.seenTxs && forall p :: p in sent ==> !p.envelope.TxMsg?
    ensures q.envelope.TxMsg? ==> TxStep(net, q, net', sent, due)
  {
    hide *;
    StepCases(net, q, accepted, net', sent, due, {});
    if q.envelope.Hello? {
      HelloSeen(net, q, net', sent, due);
    } else if q.envelope.BlockMsg? {
      BlocksSeen(net, q, accepted, net', sent, due);
    } else {
      TxsSeen(net, q, net', sent, due);
    }
  }

  lemma HelloSeen(net: Net, q: Queued, net': Net, sent: seq<Queued>, due: nat)
    requires Known(net) && q.to in net.nodes && q.envelope.Hello? && HelloStep(net, q, net', sent, due)
    ensures net'.seenTxs == net.seenTxs && forall p :: p in sent ==> !p.envelope.TxMsg?
    ensures forall n :: n in net.peers ==> n in net'.peers && net.peers[n] <= net'.peers[n]
  {
    hide TxIdOf, RecordId, Learned;
  }

  lemma BlocksSeen(net: Net, q: Queued, accepted: bool, net': Net, sent: seq<Queued>, due: nat)
    requires Known(net) && q.to in net.nodes && q.envelope.BlockMsg? && BlockStep(net, q, accepted, net', sent, due)
    ensures net'.seenTxs == net.seenTxs && net'.peers == net.peers && forall p :: p in sent ==> !p.envelope.TxMsg?
  {
    hide TxIdOf, RecordId;
  }

  lemma TxsSeen(net: Net, q: Queued, net': Net, sent: seq<Queued>, due: nat)
    requires Known(net) && q.to in net.nodes && q.envelope.TxMsg? && TxStep(net, q, net', sent, due)
    ensures && net'.peers == net.peers
            && forall n :: n in net.seenTxs ==> n in net'.seenTxs && net.seenTxs[n] <= net'.seenTxs[n]
  {
    hide TxIdOf, RecordId, SentTo;
  }

  /** The relays there are once `q` is delivered: a block accepted here went to every peer. */
  ghost function RelaysAfter(net: Net, q: Queued, accepted: bool, relays: set<Relay>): set<Relay>
    requires Known(net) && q.to in net.nodes
  {
    if q.envelope.BlockMsg? && accepted && RecordId(q.envelope.record) !in net.seenBlocks[q.to] then
      relays + set m | m in net.peers[q.to] :: Relay(q.to, RecordId(q.envelope.record), m)
    else relays
  }

  lemma StepCases(net: Net, q: Queued, accepted: bool, net': Net, sent: seq<Queued>, due: nat, relays: set<Relay>)
    requires Known(net) && q.to in net.nodes && Step(net, q, accepted, net', sent, due)
    ensures q.envelope.Hello? ==> HelloStep(net, q, net', sent, due) && RelaysAfter(net, q, accepted, relays) == relays
    ensures q.envelope.TxMsg? ==> TxStep(net, q, net', sent, due) && RelaysAfter(net, q, accepted, relays) == relays
    ensures q.envelope.BlockMsg? ==> BlockStep(net, q, accepted, net', sent, due)
    ensures var b := if q.envelope.BlockMsg? then RecordId(q.envelope.record) else 0;
            q.envelope.BlockMsg? ==>
              RelaysAfter(net, q, accepted, relays) ==
              relays + if b !in net.seenBlocks[q.to] && accepted
                       then set m | m in net.peers[q.to] :: Relay(q.to, b, m) else {}
  {
    hide TxIdOf, RecordId;
  }

  lemma HeadVouched(net: Net, q: Queued, rest: seq<Queued>, relays: set<Relay>)
    requires Sound(net, [q] + rest, relays)
    ensures Known(net) && Vouched(net, q) && q.to in net.nodes
  {
    hide TxIdOf, RecordId;
    assert q in [q] + rest;
  }

  lemma StepSound(net: Net, q: Queued, rest: seq<Queued>, relays: set<Relay>, accepted: bool, net': Net,
                  sent: seq<Queued>, due: nat)
    requires && Sound(net, [q] + rest, relays) && Known(net) && q.to in net.nodes
             && Step(net, q, accepted, net', sent, due)
    ensures Sound(net', rest + sent, RelaysAfter(net, q, accepted, relays))
  {
    hide *;
    StepCases(net, q, accepted, net', sent, due, relays);
    match q.envelope {
      case Hello(_) =>
        HelloDelivered(net, q, rest, relays, net', sent, due);
      case BlockMsg(_) =>
        BlockDelivered(net, q, rest, relays, accepted, net', sent, due, RelaysAfter(net, q, accepted, relays));
      case TxMsg(_) =>
        TxDelivered(net, q, rest, relays, net', sent, due);
    }
  }

  lemma StepLessLeft(net: Net, q: Queued, rest: seq<Queued>, accepted: bool, net': Net, sent: seq<Queued>, due: nat)
    requires Known(net) && Vouched(net, q) && q.to in net.nodes && Step(net, q, accepted, net', sent, due)
    ensures Left(net', rest + sent) < Left(net, [q] + rest)
  {
    hide *;
    StepCases(net, q, accepted, net', sent, due, {});
    match q.envelope {
      case Hello(_) =>
        HelloLessLeft(net, q, rest, net', sent, due);
      case BlockMsg(_) =>
        BlockLessLeft(net, q, rest, accepted, net', sent, due);
      case TxMsg(_) =>
        TxLessLeft(net, q, rest, net', sent, due);
    }
  }

  lemma StepFloods(net: Net, q: Queued, rest: seq<Queued>, relays: set<Relay>, accepted: bool, net': Net,
                   sent: seq<Queued>, due: nat, f: Flood)
    requires Sound(net, [q] + rest, relays) && Known(net) && q.to in net.nodes && Vouched(net, q)
    requires Step(net, q, accepted, net', sent, due) && Floods(net, [q] + rest, f)
    ensures Floods(net', rest + sent, f)
  {
    hide TxIdOf, RecordId, Sound, Flooding, Known, Vouched;
    StepSeen(net, q, accepted, net', sent, due);
    if q.envelope.TxMsg? {
      TxFloods(net, q, rest, relays, net', sent, due, f.graph, f.x);
    } else {
      OthersFlood(net, q, rest, net', sent, f.graph, f.x);
    }
  }

  /** Delivering a message keeps everything promised about the messages in flight, and leaves
      strictly less to deliver. */
  lemma Delivered(net: Net, q: Queued, rest: seq<Queued>, relays: set<Relay>, floods: set<Flood>, accepted: bool,
                  net': Net, sent: seq<Queued>, due: nat)
    requires && Intact(net, [q] + rest, relays, floods) && Known(net) && q.to in net.nodes
             && Step(net, q, accepted, net', sent, due)
    ensures Intact(net', rest + sent, RelaysAfter(net, q, accepted, relays), floods)
    ensures Left(net', rest + sent) < Left(net, [q] + rest)
  {
    hide TxIdOf, RecordId, Left, Flooding, Floods, Sound, Known, Vouched, Step, RelaysAfter;
    HeadVouched(net, q, rest, relays);
    StepSound(net, q, rest, relays, accepted, net', sent, due);
    StepLessLeft(net, q, rest, accepted, net', sent, due);
    forall f | f in floods ensures Floods(net', rest + sent, f) {
      assert Floods(net, [q] + rest, f);
      StepFloods(net, q, rest, relays, accepted, net', sent, due, f);
    }
  }

  // ------------------------------------------------------------------
  // Getting to know each other

  /** The hello `q` brings `p` to the knowledge of `m`: `p` sent it or is advertised in it. */
  ghost predicate Brings(q: Queued, m: Name, p: Name) {
    q.to == m && q.envelope.Hello? && (p == q.sender || p in q.envelope.advertised)
  }

  /** `p` is a peer of `m`, or a hello is on its way that brings it. */
  ghost predicate Coming(net: Net, flight: seq<Queued>, m: Name, p: Name) {
    || (m in net.peers && p in net.peers[m])
    || exists q {:trigger Brings(q, m, p)} :: q in flight && Brings(q, m, p)
  }

  /** Nobody is its own peer, and every edge is reversed or about to be. */
  ghost predicate Reversed(net: Net, flight: seq<Queued>, n: Name, m: Name) {
    n in net.peers && m in net.peers[n] ==> n != m && Coming(net, flight, m, n)
  }

  /** Of two peers of one node, one knows the other or is about to. */
  ghost predicate Introduced(net: Net, flight: seq<Queued>, n: Name, m: Name, p: Name) {
    n in net.peers && m in net.peers[n] && p in net.peers[n] && m != p ==>
      Coming(net, flight, m, p) || Coming(net, flight, p, m)
  }

  ghost predicate Meeting(net: Net, flight: seq<Queued>) {
    && (forall n, m {:trigger Reversed(net, flight, n, m)} :: Reversed(net, flight, n, m))
    && (forall n, m, p {:trigger Introduced(net, flight, n, m, p)} :: Introduced(net, flight, n, m, p))
  }

  /** While messages are in flight: for different peers `m` and `p` of one node, `p` is a peer of `m`,
      or a hello in flight brings it there, or one brings `m` to `p`, which will greet it. */
  lemma PeersMeet(net: Net, flight: seq<Queued>, n: Name, m: Name, p: Name)
    requires Meeting(net, flight) && n in net.peers && m in net.peers[n] && p in net.peers[n] && m != p
    ensures || (m in net.peers && p in net.peers[m])
            || exists q :: q in flight && (Brings(q, m, p) || Brings(q, p, m))
  {
    assert Introduced(net, flight, n, m, p) && Reversed(net, flight, p, m);
  }

  /** What was coming still is, or has come. */
  ghost predicate StillComing(net: Net, flight: seq<Queued>, net': Net, flight': seq<Queued>, m: Name, p: Name) {
    m in net.nodes && p in net.nodes && m != p && Coming(net, flight, m, p) ==> Coming(net', flight', m, p)
  }

  /** New edges from one node, each greeted with all that node knows, keep everyone meeting. */
  lemma EdgesMeet(net: Net, flight: seq<Queued>, net': Net, flight': seq<Queued>, n: Name, ms: set<Name>,
                  sent: seq<Queued>, due: nat)
    requires Known(net) && Meeting(net, flight) && n in net.nodes && n !in ms && ms <= net.nodes
    requires net'.peers == net.peers[n := net.peers[n] + ms] && Greeted(sent, n, ms, net.peers[n] + ms, due)
    requires forall s :: s in sent ==> s in flight'
    requires forall m, p {:trigger StillComing(net, flight, net', flight', m, p)} ::
               StillComing(net, flight, net', flight', m, p)
    ensures Meeting(net', flight')
  {
    hide Coming;
    forall m, p | m in ms && (p == n || p in net'.peers[n]) ensures Coming(net', flight', m, p) {
      GreetedComes(net', flight', sent, n, ms, net'.peers[n], due, m, p);
    }
    forall a, m ensures Reversed(net', flight', a, m) {
      assert Reversed(net, flight, a, m) && StillComing(net, flight, net', flight', m, a);
    }
    forall a, m, p ensures Introduced(net', flight', a, m, p) {
      assert Introduced(net, flight, a, m, p);
      assert StillComing(net, flight, net', flight', m, p) && StillComing(net, flight, net', flight', p, m);
    }
  }

  lemma GreetedComes(net': Net, flight': seq<Queued>, sent: seq<Queued>, n: Name, ms: set<Name>, known: set<Name>,
                     due: nat, m: Name, p: Name)
    requires Greeted(sent, n, ms, known, due) && m in ms && (p == n || p in known)
    requires forall s :: s in sent ==> s in flight'
    ensures Coming(net', flight', m, p)
  {
    var s :| s in sent && s.to == m;
    assert s in flight' && Brings(s, m, p);
  }

  /** Other messages, and nodes that join, keep everyone meeting. */
  lemma MeetingGrows(net: Net, flight: seq<Queued>, net': Net, flight': seq<Queued>)
    requires Meeting(net, flight)
    requires forall q :: q in flight && q.envelope.Hello? ==> q in flight'
    requires forall n :: n in net.peers ==> n in net'.peers && net'.peers[n] == net.peers[n]
    requires forall n :: n in net'.peers && n !in net.peers ==> net'.peers[n] == {}
    ensures Meeting(net', flight')
  {
    forall m, p | Coming(net, flight, m, p) ensures Coming(net', flight', m, p) {
      if q :| q in flight && Brings(q, m, p) {
        assert q in flight' && Brings(q, m, p);
      }
    }
    hide Coming;
    forall a, m ensures Reversed(net', flight', a, m) {
      assert Reversed(net, flight, a, m);
    }
    forall a, m, p ensures Introduced(net', flight', a, m, p) {
      assert Introduced(net, flight, a, m, p);
    }
  }

  /** The delivery of a hello. */
  lemma HelloMeets(net: Net, q: Queued, rest: seq<Queued>, net': Net, sent: seq<Queued>, due: nat)
    requires Known(net) && Vouched(net, q) && q.envelope.Hello? && HelloStep(net, q, net', sent, due)
    requires Meeting(net, [q] + rest)
    ensures Meeting(net', rest + sent)
  {
    var flight, flight' := [q] + rest, rest + sent;
    HelloStepShows(net, q, net', sent, due);
    forall m, p ensures StillComing(net, flight, net', flight', m, p) {
      HelloComes(net, q, rest, net', sent, due, m, p);
    }
    hide Meeting, Learned, StillComing, TxIdOf, RecordId;
    EdgesMeet(net, flight, net', flight', q.to, Learned(net, q), sent, due);
  }

  lemma HelloComes(net: Net, q: Queued, rest: seq<Queued>, net': Net, sent: seq<Queued>, due: nat, m: Name, p: Name)
    requires Known(net) && Vouched(net, q) && q.envelope.Hello? && HelloStep(net, q, net', sent, due)
    ensures StillComing(net, [q] + rest, net', rest + sent, m, p)
  {
    hide Greeted, TxIdOf, RecordId;
    if m in net.nodes && p in net.nodes && m != p && Coming(net, [q] + rest, m, p) {
      if p !in net.peers[m] {
        var s :| s in [q] + rest && Brings(s, m, p);
        if s in rest {
          assert s in rest + sent && Brings(s, m, p);
        }
      }
    }
  }

  /** Whatever is delivered, everyone goes on meeting. */
  lemma StepMeets(net: Net, q: Queued, rest: seq<Queued>, accepted: bool, net': Net, sent: seq<Queued>, due: nat)
    requires Known(net) && Vouched(net, q) && q.to in net.nodes && Step(net, q, accepted, net', sent, due)
    requires Meeting(net, [q] + rest)
    ensures Meeting(net', rest + sent)
  {
    hide *;
    StepCases(net, q, accepted, net', sent, due, {});
    if q.envelope.Hello? {
      HelloMeets(net, q, rest, net', sent, due);
    } else {
      if q.envelope.BlockMsg? {
        BlocksSeen(net, q, accepted, net', sent, due);
      } else {
        TxsSeen(net, q, net', sent, due);
      }
      MeetingGrows(net, [q] + rest, net', rest + sent);
    }
  }

  /** With nothing in flight, edges run both ways and the peers of a node are peers of each other. */
  lemma AllMet(net: Net)
    requires Meeting(net, [])
    ensures forall n, m :: n in net.peers && m in net.peers[n] ==> n != m && m in net.peers && n in net.peers[m]
    ensures forall n, m, p :: n in net.peers && m in net.peers[n] && p in net.peers[n] && m != p ==>
              m in net.peers && p in net.peers[m]
  {
    forall n, m | n in net.peers && m in net.peers[n]
      ensures n != m && m in net.peers && n in net.peers[m]
    {
      assert Reversed(net, [], n, m);
    }
    forall n, m, p | n in net.peers && m in net.peers[n] && p in net.peers[n] && m != p
      ensures m in net.peers && p in net.peers[m]
    {
      assert Introduced(net, [], n, m, p) && Reversed(net, [], p, m);
    }
  }

  /** So whoever is reached over any number of edges is a peer: the overlay falls into groups in which
      everyone knows everyone. */
  lemma {:induction false} ReachedIsPeer(net: Net, n: Name, m: Name, steps: nat)
    requires Known(net) && Meeting(net, []) && n in net.peers && Reaches(net.peers, n, m, steps)
    ensures m == n || m in net.peers[n]
    decreases steps
  {
    if steps > 0 {
      var p :| p in net.peers[n] && Reaches(net.peers, p, m, steps - 1);
      hide Meeting;
      AllMet(net);
      ReachedIsPeer(net, p, m, steps - 1);
    }
  }

  // ------------------------------------------------------------------
  // At idle

  /** `m` is reached from `n` over `steps` edges of the graph. */
  ghost predicate Reaches(graph: Peers, n: Name, m: Name, steps: nat)
    decreases steps
  {
    if steps == 0 then n == m else exists p :: n in graph && p in graph[n] && Reaches(graph, p, m, steps - 1)
  }

  /** When nothing is in flight, a flooded transaction has been seen by every node that its
      announcer reaches over the graph of the time. */
  lemma {:induction false} FloodReachesAll(net: Net, graph: Peers, x: TxId, n: Name, m: Name, steps: nat)
    requires Known(net) && Flooding(net, graph, x, [])
    requires n in net.nodes && x in net.seenTxs[n] && Reaches(graph, n, m, steps)
    ensures m in net.nodes && x in net.seenTxs[m]
    decreases steps
  {
    if steps > 0 {
      var p :| n in graph && p in graph[n] && Reaches(graph, p, m, steps - 1);
      assert Passed(net, graph, x, [], n, p);
      FloodReachesAll(net, graph, x, p, m, steps - 1);
    }
  }

  /** When nothing is in flight, each block accepted and relayed at a node has been seen by
      that node's peers. */
  lemma RelaysArrive(net: Net, relays: set<Relay>, floods: set<Flood>, r: Relay)
    requires Intact(net, [], relays, floods) && r in relays
    ensures r.m in net.seenBlocks && r.b in net.seenBlocks[r.m]
  {
    assert Honoured(net, [], r);
  }

  /** At idle, every flooded transaction has been seen by every node its announcer reaches. */
  lemma FloodArrives(net: Net, relays: set<Relay>, floods: set<Flood>, f: Flood, m: Name, steps: nat)
    requires Intact(net, [], relays, floods) && f in floods && Reaches(f.graph, f.origin, m, steps)
    ensures m in net.nodes && f.x in net.seenTxs[m]
  {
    hide Flooding, Reaches;
    assert Floods(net, [], f);
    FloodReachesAll(net, f.graph, f.x, f.origin, m, steps);
  }

  // ------------------------------------------------------------------
  // Announcements

  /** Over the present graph, nothing of a transaction is left to pass on if no node and no
      message has met it, or if an earlier announcement floods it over the same graph. */
  lemma AnnouncementsFlood(net: Net, flight: seq<Queued>, relays: set<Relay>, floods: set<Flood>, x: TxId)
    requires Intact(net, flight, relays, floods)
    requires || (&& (forall n :: n in net.seenTxs ==> x !in net.seenTxs[n])
                 && (forall q :: q in flight && q.envelope.TxMsg? ==> TxIdOf(q.envelope.tx) != x))
             || (exists f :: f in floods && f.graph == net.peers && f.x == x)
    ensures Flooding(net, net.peers, x, flight)
  {
    hide TxIdOf, RecordId, Vouched, Honoured;
    if f :| f in floods && f.graph == net.peers && f.x == x {
      assert Floods(net, flight, f);
    } else {
      forall a, b ensures Passed(net, net.peers, x, flight, a, b) {
      }
    }
  }

  /** Announcing a transaction leaves every other flood going. */
  lemma AnnouncedFlood(net: Net, flight: seq<Queued>, n: Name, tx: Transaction, net': Net, sent: seq<Queued>, due: nat,
                       graph: Peers, x: TxId)
    requires Known(net) && n in net.nodes && Flooding(net, graph, x, flight) && (x == TxIdOf(tx) ==> !tx.IsCoinbase())
    requires net' == SeeTx(net, n, TxIdOf(tx)) && SentTo(sent, n, net.peers[n] - {n}, TxMsg(tx), due)
    ensures Flooding(net', graph, x, flight + sent)
  {
    hide TxIdOf;
    forall p | p in flight + sent ensures Spend(p, x) {
      assert p in flight ==> Spend(p, x);
    }
    forall a, b ensures Passed(net', graph, x, flight + sent, a, b) {
      assert Passed(net, graph, x, flight, a, b);
      if Waiting(flight, b, x) {
        StillWaiting(flight, flight + sent, b, x);
      }
      if a == n && x == TxIdOf(tx) && n in graph && b in graph[n] && b != n {
        var p := Addressee(sent, n, net.peers[n] - {n}, TxMsg(tx), due, b);
        assert p in flight + sent;
      }
    }
  }

  /** Messages about other things leave a flood going. */
  lemma FloodUndisturbed(net: Net, flight: seq<Queued>, net': Net, sent: seq<Queued>, graph: Peers, x: TxId)
    requires Flooding(net, graph, x, flight) && (forall p :: p in sent ==> !p.envelope.TxMsg?)
    requires forall n :: n in net.peers ==> n in net'.peers && net.peers[n] <= net'.peers[n]
    requires forall n :: n in net'.seenTxs && n !in net.seenTxs ==> net'.seenTxs[n] == {} && n !in net.peers
    requires forall n :: n in net.seenTxs ==> n in net'.seenTxs && net'.seenTxs[n] == net.seenTxs[n]
    requires Known(net)
    ensures Flooding(net', graph, x, flight + sent)
  {
    hide TxIdOf;
    forall p | p in flight + sent ensures Spend(p, x) {
      assert p in flight ==> Spend(p, x);
    }
    forall a, b ensures Passed(net', graph, x, flight + sent, a, b) {
      assert Passed(net, graph, x, flight, a, b);
      if Waiting(flight, b, x) {
        StillWaiting(flight, flight + sent, b, x);
      }
    }
  }

  /** Every node still knows what it knew. */
  ghost predicate Grew(net: Net, net': Net) {
    && net.nodes <= net'.nodes
    && (forall n :: n in net.seenBlocks ==> n in net'.seenBlocks && net.seenBlocks[n] <= net'.seenBlocks[n])
    && (forall n :: n in net.seenTxs ==> n in net'.seenTxs && net.seenTxs[n] <= net'.seenTxs[n])
  }

  /** New messages among nodes that know no less leave the old promises standing. */
  lemma SoundGrows(net: Net, flight: seq<Queued>, relays: set<Relay>, net': Net, sent: seq<Queued>)
    requires Sound(net, flight, relays) && Known(net') && Grew(net, net') && AllVouched(net', sent)
    ensures Sound(net', flight + sent, relays)
  {
    hide TxIdOf, RecordId;
    forall p | p in flight + sent ensures Vouched(net', p) {
      if p in flight {
        assert Vouched(net, p);
      } else {
        assert p in sent;
      }
    }
    forall r | r in relays ensures Honoured(net', flight + sent, r) {
      assert Honoured(net, flight, r);
      if r.b !in net.seenBlocks[r.m] {
        BlockStillWaiting(flight, flight + sent, r.m, r.b);
      }
    }
  }

  lemma TxSent(net: Net, n: Name, tx: Transaction, net': Net, sent: seq<Queued>, due: nat)
    requires Known(net) && n in net.nodes
    requires net' == SeeTx(net, n, TxIdOf(tx)) && SentTo(sent, n, net.peers[n] - {n}, TxMsg(tx), due)
    ensures Known(net') && Grew(net, net') && AllVouched(net', sent)
  {
    hide TxIdOf, RecordId;
  }

  lemma BlockSent(net: Net, n: Name, record: BlockRecord, net': Net, sent: seq<Queued>, due: nat)
    requires Known(net) && n in net.nodes
    requires net' == SeeBlock(net, n, RecordId(record)) && SentTo(sent, n, net.peers[n] - {n}, BlockMsg(record), due)
    ensures Known(net') && Grew(net, net') && AllVouched(net', sent)
  {
    hide TxIdOf, RecordId;
  }

  /** Announcing a spend keeps everything promised, and starts a flood over the present edges if
      whoever has met the transaction already passed it along them. */
  lemma TxAnnounced(net: Net, flight: seq<Queued>, relays: set<Relay>, floods: set<Flood>, n: Name, tx: Transaction,
                    net': Net, sent: seq<Queued>, due: nat)
    requires Intact(net, flight, relays, floods) && Known(net) && n in net.nodes && !tx.IsCoinbase()
    requires net' == SeeTx(net, n, TxIdOf(tx)) && SentTo(sent, n, net.peers[n] - {n}, TxMsg(tx), due)
    ensures Intact(net', flight + sent, relays, floods)
    ensures Flooding(net, net.peers, TxIdOf(tx), flight) ==>
              Floods(net', flight + sent, Flood(net.peers, n, TxIdOf(tx)))
  {
    hide TxIdOf, RecordId, Flooding, Sound, Known, SentTo;
    TxSent(net, n, tx, net', sent, due);
    SoundGrows(net, flight, relays, net', sent);
    forall f | f in floods ensures Floods(net', flight + sent, f) {
      assert Floods(net, flight, f);
      AnnouncedFlood(net, flight, n, tx, net', sent, due, f.graph, f.x);
    }
    if Flooding(net, net.peers, TxIdOf(tx), flight) {
      AnnouncedFlood(net, flight, n, tx, net', sent, due, net.peers, TxIdOf(tx));
    }
  }

  /** Announcing a block keeps everything promised, and relays it to every peer. */
  lemma BlockAnnounced(net: Net, flight: seq<Queued>, relays: set<Relay>, floods: set<Flood>, n: Name,
                       record: BlockRecord, net': Net, sent: seq<Queued>, due: nat)
    requires Intact(net, flight, relays, floods) && Known(net) && n in net.nodes
    requires net' == SeeBlock(net, n, RecordId(record)) && SentTo(sent, n, net.peers[n] - {n}, BlockMsg(record), due)
    ensures Intact(net', flight + sent, relays + set m | m in net.peers[n] :: Relay(n, RecordId(record), m), floods)
  {
    hide TxIdOf, RecordId, Flooding;
    var b := RecordId(record);
    var added := set m | m in net.peers[n] :: Relay(n, b, m);
    BlockSent(net, n, record, net', sent, due);
    SoundGrows(net, flight, relays, net', sent);
    hide Vouched;
    forall r | r in relays + added ensures Honoured(net', flight + sent, r) {
      if r !in relays && r.m != n {
        var p := Addressee(sent, n, net.peers[n] - {n}, BlockMsg(record), due, r.m);
        assert p in flight + sent;
      }
    }
    forall f | f in floods ensures Floods(net', flight + sent, f) {
      assert Floods(net, flight, f);
      FloodUndisturbed(net, flight, net', sent, f.graph, f.x);
    }
  }

  /** The net once a node of that name is there. */
  ghost function Joined(net: Net, n: Name): Net {
    if n in net.nodes then net
    else Net(net.nodes + {n}, net.peers[n := {}], net.seenBlocks[n := {}], net.seenTxs[n := {}])
  }

  lemma JoinedIntact(net: Net, flight: seq<Queued>, relays: set<Relay>, floods: set<Flood>, n: Name)
    requires Intact(net, flight, relays, floods)
    ensures Intact(Joined(net, n), flight, relays, floods)
  {
    hide TxIdOf, RecordId, Flooding, Vouched, AllHonoured;
    var net' := Joined(net, n);
    assert flight + [] == flight;
    SoundGrows(net, flight, relays, net', []);
    forall f | f in floods ensures Floods(net', flight, f) {
      assert Floods(net, flight, f);
      FloodUndisturbed(net, flight, net', [], f.graph, f.x);
    }
  }

  /** A new edge with its hello keeps everything promised, and no more is left than before. */
  lemma ConnectedIntact(net: Net, flight: seq<Queued>, relays: set<Relay>, floods: set<Flood>, n: Name, m: Name,
                        sent: seq<Queued>, due: nat)
    requires && Intact(net, flight, relays, floods) && Known(net) && n in net.nodes && m in net.nodes && n != m
             && m !in net.peers[n]
    requires Greeted(sent, n, {m}, net.peers[n] + {m}, due)
    ensures Intact(AddEdges(net, n, {m}), flight + sent, relays, floods)
    ensures Left(AddEdges(net, n, {m}), flight + sent) <= Left(net, flight)
  {
    hide TxIdOf, RecordId, Flooding, Left, MissingEdges, UnseenBlocks, UnseenTxs, AllHonoured;
    var net' := AddEdges(net, n, {m});
    EdgesAdded(net, n, {m});
    LeftIs(net, flight, |UnseenBlocks(net)| + |UnseenTxs(net)|);
    LeftIs(net', flight + sent, |UnseenBlocks(net)| + |UnseenTxs(net)|);
    SoundGrows(net, flight, relays, net', sent);
    hide Vouched;
    forall f | f in floods ensures Floods(net', flight + sent, f) {
      assert Floods(net, flight, f);
      FloodUndisturbed(net, flight, net', sent, f.graph, f.x);
    }
  }

  lemma JoinedMeets(net: Net, flight: seq<Queued>, n: Name)
    requires Known(net) && Meeting(net, flight)
    ensures Meeting(Joined(net, n), flight)
  {
    hide Meeting;
    MeetingGrows(net, flight, Joined(net, n), flight);
  }

  lemma ConnectedMeets(net: Net, flight: seq<Queued>, n: Name, m: Name, sent: seq<Queued>, due: nat)
    requires Known(net) && Meeting(net, flight) && n in net.nodes && m in net.nodes && n != m
    requires Greeted(sent, n, {m}, net.peers[n] + {m}, due)
    ensures Meeting(AddEdges(net, n, {m}), flight + sent)
  {
    var net' := AddEdges(net, n, {m});
    hide Meeting;
    forall a, b ensures StillComing(net, flight, net', flight + sent, a, b) {
      if q :| q in flight && Brings(q, a, b) {
        assert q in flight + sent && Brings(q, a, b);
      }
    }
    hide StillComing;
    EdgesMeet(net, flight, net', flight + sent, n, {m}, sent, due);
  }

  datatype P2pError = UnknownNode(name: Name)

  ghost predicate Timely(flight: seq<Queued>, now: nat) {
    forall q :: q in flight ==> q.due <= SatAdd(now, 1, U64_MAX)
  }

  function KindOf(e: Envelope): GossipKind {
    match e
    case Hello(_) => HelloEvent
    case BlockMsg(_) => BlockEvent
    case TxMsg(_) => TxEvent
  }

  ghost function Names(s: seq<Name>): set<Name> {
    set m | m in s
  }

  ghost predicate NoRepeats(s: seq<Name>) {
    forall i, j :: 0 <= i < j < |s| ==> s[i] != s[j]
  }

  // ------------------------------------------------------------------
  // Unfolding, one definition at a time

  lemma IntactKnown(net: Net, flight: seq<Queued>, relays: set<Relay>, floods: set<Flood>)
    requires Intact(net, flight, relays, floods)
    ensures && Known(net) && net.peers.Keys == net.nodes && net.seenBlocks.Keys == net.nodes
            && net.seenTxs.Keys == net.nodes
  {
    hide TxIdOf, RecordId;
  }

  lemma KnownIs(net: Net)
    requires Known(net)
    ensures net.peers.Keys == net.nodes && net.seenBlocks.Keys == net.nodes && net.seenTxs.Keys == net.nodes
  {
  }

  lemma MulPositive(n: nat, k: nat)
    ensures n * k >= 0
  {
  }

  lemma IntactHead(net: Net, q: Queued, rest: seq<Queued>, relays: set<Relay>, floods: set<Flood>)
    requires Intact(net, [q] + rest, relays, floods)
    ensures Known(net) && q.to in net.nodes && q.sender in net.nodes && q.sender != q.to
  {
    hide TxIdOf, RecordId;
    HeadVouched(net, q, rest, relays);
  }

  lemma IntactVouched(net: Net, q: Queued, rest: seq<Queued>, relays: set<Relay>, floods: set<Flood>)
    requires Intact(net, [q] + rest, relays, floods)
    ensures Vouched(net, q)
  {
    hide TxIdOf, RecordId;
    HeadVouched(net, q, rest, relays);
  }

  lemma StepFrom(net: Net, q: Queued, accepted: bool, net': Net, sent: seq<Queued>, due: nat)
    requires Known(net) && q.to in net.nodes
    requires q.envelope.Hello? ==> HelloStep(net, q, net', sent, due)
    requires q.envelope.BlockMsg? ==> BlockStep(net, q, accepted, net', sent, due)
    requires q.envelope.TxMsg? ==> TxStep(net, q, net', sent, due)
    ensures Step(net, q, accepted, net', sent, due)
  {
    hide HelloStep, BlockStep, TxStep;
  }

  lemma RelaysGrow(net: Net, q: Queued, accepted: bool, relays: set<Relay>)
    requires Known(net) && q.to in net.nodes
    ensures relays <= RelaysAfter(net, q, accepted, relays)
  {
    hide RecordId;
  }

  lemma StepTimely(net: Net, q: Queued, accepted: bool, net': Net, flight: seq<Queued>, sent: seq<Queued>, now: nat)
    requires && Known(net) && q.to in net.nodes && Step(net, q, accepted, net', sent, SatAdd(now, 1, U64_MAX))
             && Timely(flight, now)
    ensures Timely(flight + sent, now)
  {
    hide TxIdOf, RecordId, SatAdd;
  }

  lemma SameNodes(net: Net, q: Queued, accepted: bool, net': Net, sent: seq<Queued>, due: nat)
    requires Known(net) && q.to in net.nodes && Step(net, q, accepted, net', sent, due)
    ensures net'.nodes == net.nodes
  {
    hide TxIdOf, RecordId, SentTo, Greeted;
  }

  lemma NamesNext(s: seq<Name>, i: nat)
    requires NoRepeats(s) && i <= |s|
    ensures i == 0 ==> Names(s[..i]) == {}
    ensures i < |s| ==> Names(s[..i + 1]) == Names(s[..i]) + {s[i]} && s[i] !in Names(s[..i]) && s[i] in Names(s)
  {
    if i < |s| {
      assert s[..i + 1] == s[..i] + [s[i]];
    }
  }

  lemma LearnedIs(net: Net, q: Queued, newReverse: bool, unmet: seq<Name>)
    requires && Known(net) && q.to in net.nodes && q.envelope.Hello? && q.sender != q.to
             && newReverse == (q.sender !in net.peers[q.to])
    requires Names(unmet) == Invited(net.nodes, q.to, q.sender, q.envelope.advertised) - {q.sender} - net.peers[q.to]
    ensures Learned(net, q) == (if newReverse then {q.sender} else {}) + Names(unmet)
    ensures q.to !in Names(unmet) && q.sender !in Names(unmet)
  {
  }

  lemma LearnedMembers(net: Net, q: Queued, known: set<Name>)
    requires Known(net) && q.to in net.nodes && q.sender != q.to && q.envelope.Hello?
    requires known == net.peers[q.to] + Invited(net.nodes, q.to, q.sender, q.envelope.advertised)
    ensures forall m :: m in known <==>
              || m in net.peers[q.to] || m == q.sender
              || (m in q.envelope.advertised && m in net.nodes && m != q.to)
    ensures known - net.peers[q.to] == Learned(net, q)
  {
  }

  lemma HelloStepFrom(net: Net, q: Queued, net': Net, sent: seq<Queued>, due: nat)
    requires Known(net) && q.to in net.nodes && q.envelope.Hello? && q.sender != q.to && q.to in net'.peers
    requires net' ==
             net.(peers := net.peers[q.to := net.peers[q.to]
                                             + Invited(net.nodes, q.to, q.sender, q.envelope.advertised)])
    requires Greeted(sent, q.to, Learned(net, q), net'.peers[q.to], due)
    ensures HelloStep(net, q, net', sent, due)
  {
    hide Greeted;
    assert net'.peers[q.to] == net.peers[q.to] + Learned(net, q);
  }

  lemma NobodyGreeted(n: Name, known: set<Name>, due: nat)
    ensures Greeted([], n, {}, known, due)
  {
  }

  lemma NothingSent(n: Name, e: Envelope, due: nat)
    ensures SentTo([], n, {}, e, due)
  {
  }

  lemma AllGreeted(sent: seq<Queued>, n: Name, targets: set<Name>, known: set<Name>, due: nat, more: seq<Queued>,
                   m: Name)
    requires Greeted(sent, n, targets, known, due) && Greeted(more, n, {m}, known, due) && |more| == 1 && m !in targets
    ensures Greeted(sent + more, n, targets + {m}, known, due)
  {
    assert more[0] in more && more == [more[0]];
    MoreGreeted(sent, n, targets, known, due, more[0]);
  }

  lemma NextGreeted(sent: seq<Queued>, more: seq<Queued>, n: Name, met: set<Name>, unmet: seq<Name>, i: nat,
                    known: set<Name>, due: nat, one: seq<Queued>)
    requires NoRepeats(unmet) && i < |unmet| && met !! Names(unmet) && |one| == 1
    requires Greeted(sent + more, n, met + Names(unmet[..i]), known, due) && Greeted(one, n, {unmet[i]}, known, due)
    ensures Greeted(sent + (more + one), n, met + Names(unmet[..i + 1]), known, due)
  {
    hide Greeted, Names;
    NamesNext(unmet, i);
    AllGreeted(sent + more, n, met + Names(unmet[..i]), known, due, one, unmet[i]);
    Joining(sent, more, one);
    assert met + Names(unmet[..i]) + {unmet[i]} == met + Names(unmet[..i + 1]);
  }

  lemma Joining<T>(a: seq<T>, b: seq<T>, c: seq<T>)
    ensures a + b + c == a + (b + c)
  {
  }

  lemma TimelySent(flight: seq<Queued>, sent: seq<Queued>, now: nat, n: Name, targets: set<Name>, known: set<Name>)
    requires Timely(flight, now) && Greeted(sent, n, targets, known, SatAdd(now, 1, U64_MAX))
    ensures Timely(flight + sent, now)
  {
  }

  lemma TimelySentTo(flight: seq<Queued>, sent: seq<Queued>, now: nat, n: Name, targets: set<Name>, e: Envelope)
    requires Timely(flight, now) && SentTo(sent, n, targets, e, SatAdd(now, 1, U64_MAX))
    ensures Timely(flight + sent, now)
  {
  }

  lemma JoinedIs(net: Net, n: Name, net': Net)
    requires net.peers.Keys == net.nodes && net.seenBlocks.Keys == net.nodes && net.seenTxs.Keys == net.nodes
    requires net' ==
             if n in net.nodes then net.(nodes := net.nodes + {n})
             else Net(net.nodes + {n}, net.peers[n := {}], net.seenBlocks[n := {}], net.seenTxs[n := {}])
    ensures net' == Joined(net, n)
  {
    assert n in net.nodes ==> net.nodes + {n} == net.nodes;
  }

  lemma EdgeIs(net: Net, n: Name, m: Name, net': Net)
    requires n in net.peers && net' == net.(peers := net.peers[n := net.peers[n] + {m}])
    ensures net' == AddEdges(net, n, {m})
  {
  }

  lemma SawTx(net: Net, net': Net, n: Name, x: TxId)
    requires n in net.seenTxs && net' == net.(seenTxs := net.seenTxs[n := net.seenTxs[n] + {x}])
    ensures net' == SeeTx(net, n, x)
  {
  }

  lemma SawBlock(net: Net, net': Net, n: Name, b: BlockId)
    requires n in net.seenBlocks && net' == net.(seenBlocks := net.seenBlocks[n := net.seenBlocks[n] + {b}])
    ensures net' == SeeBlock(net, n, b)
  {
  }

  lemma OneMoreFlood(net: Net, flight: seq<Queued>, relays: set<Relay>, floods: set<Flood>, f: Flood)
    requires Intact(net, flight, relays, floods) && Floods(net, flight, f)
    ensures Intact(net, flight, relays, floods + {f})
  {
    hide Floods, Sound;
  }

  // ------------------------------------------------------------------
  // The mesh itself

  class Mesh {
    var nodes: set<Name>
    var peers: Peers
    var queue: seq<Queued>
    var seenBlocks: map<Name, set<BlockId>>
    var seenTxs: map<Name, set<TxId>>
    var now: u64
    var events: seq<GossipEvent>
    /** Every block accepted at a node, with each peer it was relayed to; every flood started. */
    ghost var relays: set<Relay>
    ghost var floods: set<Flood>

    ghost function View(): Net
      reads this`nodes, this`peers, this`seenBlocks, this`seenTxs
    {
      Net(nodes, peers, seenBlocks, seenTxs)
    }

    ghost predicate Valid()
      reads this
    {
      Intact(View(), queue, relays, floods) && Meeting(View(), queue) && Timely(queue, now)
    }

    constructor ()
      ensures Valid() && nodes == {} && queue == [] && relays == {} && floods == {} && now == 0
    {
      nodes, peers, queue, seenBlocks, seenTxs, now, events := {}, map[], [], map[], map[], 0, [];
      relays, floods := {}, {};
    }

    /** Register a node; one of that name keeps its peers and what it has seen. */
    method Add(name: Name)
      requires Valid()
      modifies this`nodes, this`peers, this`seenBlocks, this`seenTxs
      ensures Valid() && View() == Joined(old(View()), name)
    {
      hide *;
      ghost var net := View();
      ViewIs();
      ValidIs();
      IntactKnown(net, queue, relays, floods);
      JoinedIntact(net, queue, relays, floods, name);
      JoinedMeets(net, queue, name);
      nodes := nodes + {name};
      if name !in peers {
        peers := peers[name := {}];
      }
      if name !in seenBlocks {
        seenBlocks := seenBlocks[name := {}];
      }
      if name !in seenTxs {
        seenTxs := seenTxs[name := {}];
      }
      ViewIs();
      JoinedIs(net, name, View());
      ValidIs();
    }

    /** Add the edge from `sender` to `to`, and greet `to` along it if it is new. */
    method Connect(sender: Name, to: Name) returns (r: Result<(), P2pError>)
      requires Valid()
      modifies this`peers, this`queue
      ensures Valid() && Left(View(), queue) <= old(Left(View(), queue))
      ensures r ==
              (if sender !in nodes then Err(UnknownNode(sender))
               else if to !in nodes then Err(UnknownNode(to))
               else Ok(()))
      ensures r.Ok? && sender != to ==> sender in old(peers) && peers == old(peers)[sender := old(peers)[sender] + {to}]
      ensures r.Ok? && sender != to && to !in old(peers)[sender] ==>
                && |queue| == |old(queue)| + 1
                && Greeted(queue[|old(queue)|..], sender, {to}, peers[sender], SatAdd(now, 1, U64_MAX))
      ensures r.Err? || sender == to || to in old(peers)[sender] ==> peers == old(peers) && queue == old(queue)
    {
      hide *;
      ViewIs();
      ValidIs();
      IntactKnown(View(), queue, relays, floods);
      if sender !in nodes {
        return Err(UnknownNode(sender));
      }
      if to !in nodes {
        return Err(UnknownNode(to));
      }
      r := Ok(());
      if sender == to {
        return;
      }
      var inserted := to !in peers[sender];
      ghost var net, flight := View(), queue;
      peers := peers[sender := peers[sender] + {to}];
      if inserted {
        ghost var sent := EnqueueHello(sender, to);
        assert queue[|flight|..] == sent;
        ConnectedIntact(net, flight, relays, floods, sender, to, sent, SatAdd(now, 1, U64_MAX));
        ConnectedMeets(net, flight, sender, to, sent, SatAdd(now, 1, U64_MAX));
        TimelySent(flight, sent, now, sender, {to}, peers[sender]);
        ViewIs();
        EdgeIs(net, sender, to, View());
      } else {
        assert net.peers[sender] + {to} == net.peers[sender];
        assert peers == net.peers;
        ViewIs();
      }
      ValidIs();
    }

    /** Advance the clock and deliver every message that is due, which is all of them. */
    method Tick() returns (n: nat)
      requires Valid()
      modifies this
      ensures Valid() && nodes == old(nodes) && floods == old(floods) && old(relays) <= relays
      ensures now == SatAdd(old(now), 1, U64_MAX)
      ensures n == |old(queue)| && Left(View(), queue) + n <= old(Left(View(), queue))
      ensures |events| == |old(events)| + n
    {
      hide *;
      ghost var left := Left(View(), queue);
      ghost var names := nodes;
      var due: seq<Queued> := Ripen();
      n := |due|;
      assert due[0..] + queue == due;
      for i := 0 to n
        invariant Intact(View(), due[i..] + queue, relays, floods) && Left(View(), due[i..] + queue) + i <= left
        invariant Meeting(View(), due[i..] + queue)
        invariant && nodes == names && floods == old(floods) && old(relays) <= relays
                  && now == SatAdd(old(now), 1, U64_MAX)
        invariant Timely(queue, now) && |events| == |old(events)| + i
      {
        assert due[i..] + queue == [due[i]] + (due[i + 1..] + queue);
        ghost var sent, accepted := Deliver(due[i], due[i + 1..]);
      }
      assert due[n..] + queue == queue;
      ValidIs();
    }

    lemma ViewIs()
      ensures View() == Net(nodes, peers, seenBlocks, seenTxs)
    {
    }

    lemma ValidIs()
      ensures Valid() <==> Intact(View(), queue, relays, floods) && Meeting(View(), queue) && Timely(queue, now)
    {
    }

    /** Advance the clock and take the messages that are now due off the queue. */
    method Ripen() returns (due: seq<Queued>)
      requires Valid()
      modifies this`now, this`queue
      ensures now == SatAdd(old(now), 1, U64_MAX) && due == old(queue) && queue == []
      ensures Intact(View(), due, relays, floods) && Meeting(View(), due) && Timely(queue, now)
    {
      hide Intact, Meeting;
      now := SatAdd(now, 1, U64_MAX);
      due := [];
      var rest: seq<Queued> := [];
      for i := 0 to |queue|
        invariant due == queue[..i] && rest == []
      {
        var q := queue[i];
        if q.due <= now {
          due := due + [q];
        } else {
          rest := rest + [q];
        }
      }
      assert queue[..|queue|] == queue;
      queue := rest;
    }

    /** Tick until nothing is in flight or the limit is met. A limit of what is left is enough. */
    method Drain(limit: u32) returns (total: nat)
      requires Valid()
      modifies this
      ensures Valid() && nodes == old(nodes) && floods == old(floods) && old(relays) <= relays
      ensures Left(View(), queue) + total <= old(Left(View(), queue))
      ensures limit >= old(Left(View(), queue)) ==> queue == []
      ensures queue == [] ==> Settled()
    {
      hide *;
      total := 0;
      ghost var left := Left(View(), queue);
      for i := 0 to limit
        invariant Valid() && nodes == old(nodes) && floods == old(floods) && old(relays) <= relays
        invariant Left(View(), queue) + total <= left && i <= total
      {
        if queue == [] {
          Idle();
          return;
        }
        var n := Tick();
        total := total + n;
      }
      LeftIs(View(), queue, |UnseenBlocks(View())| + |UnseenTxs(View())|);
      MulPositive(|View().nodes|, |UnseenBlocks(View())| + |UnseenTxs(View())|);
      if queue == [] {
        Idle();
      }
    }

    /** Every announced transaction has been seen by all nodes that its announcer reached over
        the edges of the time, and every relayed block by the peers it was relayed to; every edge
        runs both ways, and any two peers of a node are peers of each other. */
    ghost predicate Settled()
      reads this
    {
      && (forall f, m, steps: nat {:trigger Reaches(f.graph, f.origin, m, steps)} ::
            f in floods && Reaches(f.graph, f.origin, m, steps) ==> m in seenTxs && f.x in seenTxs[m])
      && (forall r {:trigger r in relays} :: r in relays ==> r.m in seenBlocks && r.b in seenBlocks[r.m])
      && (forall n, m :: n in peers && m in peers[n] ==> n != m && m in peers && n in peers[m])
      && (forall n, m, p :: n in peers && m in peers[n] && p in peers[n] && m != p ==> m in peers && p in peers[m])
    }

    lemma Idle()
      requires Valid() && queue == []
      ensures Settled()
    {
      hide Sound, AllFlooding, Reaches, Known, Meeting;
      IntactKnown(View(), queue, relays, floods);
      AllMet(View());
      forall f, m, steps: nat {:trigger Reaches(f.graph, f.origin, m, steps)}
        | f in floods && Reaches(f.graph, f.origin, m, steps)
        ensures m in seenTxs && f.x in seenTxs[m]
      {
        FloodArrives(View(), relays, floods, f, m, steps);
      }
      forall r {:trigger r in relays} | r in relays ensures r.m in seenBlocks && r.b in seenBlocks[r.m] {
        RelaysArrive(View(), relays, floods, r);
      }
    }

    /** Deliver one message, with `rest` still to be delivered before the queue. */
    method Deliver(q: Queued, ghost rest: seq<Queued>) returns (ghost sent: seq<Queued>, ghost accepted: bool)
      requires Intact(View(), [q] + (rest + queue), relays, floods) && Timely(queue, now)
      requires Meeting(View(), [q] + (rest + queue))
      modifies this
      ensures Intact(View(), rest + queue, relays, floods) && Timely(queue, now)
      ensures Meeting(View(), rest + queue)
      ensures nodes == old(nodes) && now == old(now) && floods == old(floods) && queue == old(queue) + sent
      ensures && Known(old(View())) && q.to in old(nodes)
              && Step(old(View()), q, accepted, View(), sent, SatAdd(now, 1, U64_MAX))
      ensures relays == RelaysAfter(old(View()), q, accepted, old(relays)) && old(relays) <= relays
      ensures Left(View(), rest + queue) < old(Left(View(), [q] + (rest + queue)))
      ensures events == old(events) + [GossipEvent(now, q.sender, q.to, KindOf(q.envelope))]
    {
      hide *;
      ghost var net, flight, due := View(), queue, SatAdd(now, 1, U64_MAX);
      ViewIs();
      IntactHead(net, q, rest + queue, relays, floods);
      events := events + [GossipEvent(now, q.sender, q.to, KindOf(q.envelope))];
      accepted := false;
      match q.envelope {
        case Hello(_) => sent := OnHello(q);
        case BlockMsg(_) => sent, accepted := OnBlock(q);
        case TxMsg(_) => sent := OnTx(q);
      }
      StepFrom(net, q, accepted, View(), sent, due);
      Delivered(net, q, rest + flight, relays, floods, accepted, View(), sent, due);
      IntactVouched(net, q, rest + flight, relays, floods);
      StepMeets(net, q, rest + flight, accepted, View(), sent, due);
      assert rest + flight + sent == rest + queue;
      relays := RelaysAfter(net, q, accepted, relays);
      RelaysGrow(net, q, accepted, old(relays));
      StepTimely(net, q, accepted, View(), flight, sent, now);
      SameNodes(net, q, accepted, View(), sent, due);
      ViewIs();
    }

    method OnTx(q: Queued) returns (ghost sent: seq<Queued>)
      requires Known(View()) && q.to in nodes && q.envelope.TxMsg?
      modifies this`seenTxs, this`queue
      ensures queue == old(queue) + sent && TxStep(old(View()), q, View(), sent, SatAdd(now, 1, U64_MAX))
      // New to the receiver and no coinbase, it goes on to each peer but the one it came from.
      ensures var id := TxIdOf(q.envelope.tx);
              && q.to in old(seenTxs) && q.to in peers && seenTxs == old(seenTxs)[q.to := old(seenTxs)[q.to] + {id}]
              && Onward(sent, q.to, q.envelope,
                        if id !in old(seenTxs)[q.to] && q.envelope.tx.inputs != []
                        then peers[q.to] - {q.sender, q.to} else {})
    {
      hide TxIdOf, SentTo;
      var id := TxIdOf(q.envelope.tx);
      sent := [];
      if id in seenTxs[q.to] {
        assert seenTxs[q.to] + {id} == seenTxs[q.to];
        assert Onward(sent, q.to, q.envelope, {});
        return;
      }
      seenTxs := seenTxs[q.to := seenTxs[q.to] + {id}];
      if q.envelope.tx.IsCoinbase() {
        assert Onward(sent, q.to, q.envelope, {});
        return;
      }
      sent := SendAll(q.to, {q.sender}, q.envelope);
      assert {q.sender} + {q.to} == {q.sender, q.to};
      SentMeans(sent, q.to, peers[q.to] - {q.sender, q.to}, q.envelope, SatAdd(now, 1, U64_MAX));
    }

    /** The node decides whether it accepts the block; the mesh cannot tell. */
    method OnBlock(q: Queued) returns (ghost sent: seq<Queued>, accepted: bool)
      requires Known(View()) && q.to in nodes && q.envelope.BlockMsg?
      modifies this`seenBlocks, this`queue
      ensures queue == old(queue) + sent && BlockStep(old(View()), q, accepted, View(), sent, SatAdd(now, 1, U64_MAX))
      // New to the receiver and accepted by it, it goes on to each peer but the one it came from.
      ensures var id := RecordId(q.envelope.record);
              && q.to in old(seenBlocks) && q.to in peers
              && seenBlocks == old(seenBlocks)[q.to := old(seenBlocks)[q.to] + {id}]
              && Onward(sent, q.to, q.envelope,
                        if id !in old(seenBlocks)[q.to] && accepted then peers[q.to] - {q.sender, q.to} else {})
    {
      hide RecordId, SentTo;
      var id := RecordId(q.envelope.record);
      sent, accepted := [], false;
      if id in seenBlocks[q.to] {
        assert seenBlocks[q.to] + {id} == seenBlocks[q.to];
        assert Onward(sent, q.to, q.envelope, {});
        return;
      }
      seenBlocks := seenBlocks[q.to := seenBlocks[q.to] + {id}];
      accepted := *;
      if !accepted {
        assert Onward(sent, q.to, q.envelope, {});
        return;
      }
      sent := SendAll(q.to, {q.sender}, q.envelope);
      assert {q.sender} + {q.to} == {q.sender, q.to};
      SentMeans(sent, q.to, peers[q.to] - {q.sender, q.to}, q.envelope, SatAdd(now, 1, U64_MAX));
    }

    /** Learn the sender and the peers it advertises, and greet whoever is new. */
    method OnHello(q: Queued) returns (ghost sent: seq<Queued>)
      requires Known(View()) && q.to in nodes && q.sender in nodes && q.sender != q.to && q.envelope.Hello?
      modifies this`peers, this`queue
      ensures queue == old(queue) + sent && HelloStep(old(View()), q, View(), sent, SatAdd(now, 1, U64_MAX))
      // The receiver now knows its old peers, the sender, and every advertised node there is.
      ensures q.to in old(peers) && peers == old(peers)[q.to := peers[q.to]]
      ensures forall m :: m in peers[q.to] <==>
                || m in old(peers)[q.to] || m == q.sender
                || (m in q.envelope.advertised && m in nodes && m != q.to)
      // Whoever is new among them is greeted once, with all that the receiver knows.
      ensures Greeted(sent, q.to, peers[q.to] - old(peers)[q.to], peers[q.to], SatAdd(now, 1, U64_MAX))
    {
      hide *;
      ghost var net, due := View(), SatAdd(now, 1, U64_MAX);
      ViewIs();
      KnownIs(net);
      var newReverse, unmet := LearnPeers(q.to, q.sender, q.envelope.advertised);
      LearnedIs(net, q, newReverse, unmet);
      sent := [];
      ghost var met: set<Name> := {};
      NobodyGreeted(q.to, peers[q.to], due);
      if newReverse {
        sent := EnqueueHello(q.to, q.sender);
        met := {q.sender};
      }
      ghost var more := GreetAll(q.to, unmet, met, sent);
      Joining(old(queue), sent, more);
      sent := sent + more;
      ViewIs();
      HelloStepFrom(net, q, View(), sent, due);
      LearnedMembers(net, q, peers[q.to]);
    }

    /** Greet each of some nodes, after the messages `sent` have greeted those already `met`. */
    method GreetAll(to: Name, unmet: seq<Name>, ghost met: set<Name>, ghost sent: seq<Queued>)
      returns (ghost more: seq<Queued>)
      requires to in peers && Greeted(sent, to, met, peers[to], SatAdd(now, 1, U64_MAX))
      requires NoRepeats(unmet) && to !in Names(unmet) && met !! Names(unmet)
      modifies this`queue
      ensures queue == old(queue) + more
      ensures Greeted(sent + more, to, met + Names(unmet), peers[to], SatAdd(now, 1, U64_MAX))
    {
      hide *;
      more := [];
      assert sent + more == sent;
      NamesNext(unmet, 0);
      assert met + Names(unmet[..0]) == met;
      for i := 0 to |unmet|
        invariant queue == old(queue) + more
        invariant Greeted(sent + more, to, met + Names(unmet[..i]), peers[to], SatAdd(now, 1, U64_MAX))
      {
        NamesNext(unmet, i);
        ghost var one := EnqueueHello(to, unmet[i]);
        NextGreeted(sent, more, to, met, unmet, i, peers[to], SatAdd(now, 1, U64_MAX), one);
        Joining(old(queue), more, one);
        more := more + one;
      }
      assert unmet[..|unmet|] == unmet;
    }

    /** Add the edges a hello brings: the sender, and the nodes it advertises. */
    method LearnPeers(to: Name, sender: Name, advertised: seq<Name>) returns (newReverse: bool, unmet: seq<Name>)
      requires to in nodes && nodes == peers.Keys && sender != to
      modifies this`peers
      ensures newReverse == (sender !in old(peers)[to])
      ensures peers == old(peers)[to := old(peers)[to] + Invited(nodes, to, sender, advertised)]
      ensures Names(unmet) == Invited(nodes, to, sender, advertised) - {sender} - old(peers)[to] && NoRepeats(unmet)
    {
      newReverse := sender !in peers[to];
      var known := peers[to] + {sender};
      unmet := [];
      for i := 0 to |advertised|
        invariant known == peers[to] + {sender} + set m | m in advertised[..i] && m in nodes && m != to
        invariant forall m ::
                    m in unmet <==> m in advertised[..i] && m in nodes && m != to && m != sender && m !in peers[to]
        invariant NoRepeats(unmet)
      {
        var p := advertised[i];
        assert advertised[..i + 1] == advertised[..i] + [p];
        if p != to && p != sender && p in nodes && p !in known {
          known := known + {p};
          unmet := unmet + [p];
        }
      }
      assert advertised[..|advertised|] == advertised;
      assert known == peers[to] + Invited(nodes, to, sender, advertised);
      peers := peers[to := known];
    }

    /** Queue a message for the next tick; a node sends nothing to itself. */
    method Enqueue(sender: Name, to: Name, envelope: Envelope)
      modifies this`queue
      ensures queue == old(queue) + if sender == to then [] else [Queued(SatAdd(now, 1, U64_MAX), sender, to, envelope)]
    {
      if sender == to {
        return;
      }
      queue := queue + [Queued(SatAdd(now, 1, U64_MAX), sender, to, envelope)];
    }

    /** Send a message to every peer of `sender` except those excluded. */
    method SendAll(sender: Name, except: set<Name>, envelope: Envelope) returns (ghost sent: seq<Queued>)
      requires sender in peers
      modifies this`queue
      ensures queue == old(queue) + sent
      ensures SentTo(sent, sender, peers[sender] - (except + {sender}), envelope, SatAdd(now, 1, U64_MAX))
    {
      hide SentTo, SatAdd;
      sent := [];
      var rest := peers[sender];
      ghost var done: set<Name> := {};
      NothingSent(sender, envelope, SatAdd(now, 1, U64_MAX));
      while rest != {}
        invariant rest <= peers[sender] && queue == old(queue) + sent
        invariant done == peers[sender] - (except + {sender}) - rest
        invariant SentTo(sent, sender, done, envelope, SatAdd(now, 1, U64_MAX))
        decreases rest
      {
        var m :| m in rest;
        rest := rest - {m};
        if m in except {
          continue;
        }
        Enqueue(sender, m, envelope);
        if m != sender {
          MoreSent(sent, sender, done, envelope, SatAdd(now, 1, U64_MAX), m);
          sent := sent + [Queued(SatAdd(now, 1, U64_MAX), sender, m, envelope)];
          done := done + {m};
        }
      }
      assert done == peers[sender] - (except + {sender});
    }

    /** A node's peers in some order. */
    method PeersOf(n: Name) returns (s: seq<Name>)
      requires n in peers
      ensures forall m :: m in s <==> m in peers[n]
    {
      s := [];
      var rest := peers[n];
      while rest != {}
        invariant rest <= peers[n] && forall m :: m in s <==> m in peers[n] && m !in rest
        decreases rest
      {
        var m :| m in rest;
        s := s + [m];
        rest := rest - {m};
      }
    }

    method EnqueueHello(sender: Name, to: Name) returns (ghost sent: seq<Queued>)
      requires sender in peers && sender != to
      modifies this`queue
      ensures queue == old(queue) + sent && |sent| == 1
      ensures Greeted(sent, sender, {to}, peers[sender], SatAdd(now, 1, U64_MAX))
    {
      var advertised := PeersOf(sender);
      Enqueue(sender, to, Hello(advertised));
      sent := [Queued(SatAdd(now, 1, U64_MAX), sender, to, Hello(advertised))];
      assert sent[0] in sent;
    }

    /** Announce a transaction from the node's pool, never a coinbase, to all its peers. */
    method AnnounceTx(name: Name, tx: Transaction)
      requires Valid() && name in nodes && !tx.IsCoinbase()
      modifies this`seenTxs, this`queue, this`floods
      ensures Valid() && name in old(seenTxs) && View() == SeeTx(old(View()), name, TxIdOf(tx))
      ensures old(floods) <= floods <= old(floods) + {Flood(peers, name, TxIdOf(tx))}
      ensures old(Flooding(View(), peers, TxIdOf(tx), queue)) ==> Flood(peers, name, TxIdOf(tx)) in floods
      ensures old(queue) <= queue && name in peers
      ensures SentTo(queue[|old(queue)|..], name, peers[name] - {name}, TxMsg(tx), SatAdd(now, 1, U64_MAX))
    {
      hide *;
      ghost var net, flight := View(), queue;
      ValidIs();
      ViewIs();
      IntactKnown(net, flight, relays, floods);
      seenTxs := seenTxs[name := seenTxs[name] + {TxIdOf(tx)}];
      ghost var sent := SendAll(name, {}, TxMsg(tx));
      assert {} + {name} == {name};
      ViewIs();
      SawTx(net, View(), name, TxIdOf(tx));
      TxAnnounced(net, flight, relays, floods, name, tx, View(), sent, SatAdd(now, 1, U64_MAX));
      if Flooding(net, net.peers, TxIdOf(tx), flight) {
        OneMoreFlood(View(), queue, relays, floods, Flood(peers, name, TxIdOf(tx)));
        floods := floods + {Flood(peers, name, TxIdOf(tx))};
      }
      TimelySentTo(flight, sent, now, name, peers[name] - {name}, TxMsg(tx));
      MeetingGrows(net, flight, View(), queue);
      ValidIs();
    }

    /** Announce a block of this node to all its peers. */
    method AnnounceBlock(name: Name, record: BlockRecord)
      requires Valid() && name in nodes
      modifies this`seenBlocks, this`queue, this`relays
      ensures Valid() && name in old(seenBlocks) && View() == SeeBlock(old(View()), name, RecordId(record))
      ensures name in peers && relays == old(relays) + set m | m in peers[name] :: Relay(name, RecordId(record), m)
      ensures old(queue) <= queue
      ensures SentTo(queue[|old(queue)|..], name, peers[name] - {name}, BlockMsg(record), SatAdd(now, 1, U64_MAX))
    {
      hide *;
      ghost var net, flight := View(), queue;
      ValidIs();
      ViewIs();
      IntactKnown(net, flight, relays, floods);
      seenBlocks := seenBlocks[name := seenBlocks[name] + {RecordId(record)}];
      ghost var sent := SendAll(name, {}, BlockMsg(record));
      assert {} + {name} == {name};
      ViewIs();
      SawBlock(net, View(), name, RecordId(record));
      BlockAnnounced(net, flight, relays, floods, name, record, View(), sent, SatAdd(now, 1, U64_MAX));
      relays := relays + set m | m in peers[name] :: Relay(name, RecordId(record), m);
      TimelySentTo(flight, sent, now, name, peers[name] - {name}, BlockMsg(record));
      MeetingGrows(net, flight, View(), queue);
      ValidIs();
    }
  }
}
