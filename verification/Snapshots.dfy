/** Stored blocks and whole-DAG snapshots: encoding, decoding and replay. */
module Snapshots {
  import opened Types
  import opened Graphs
  import opened Bytes
  import opened Encodings
  import opened Blocks
  import opened Ghostdag
  import opened Consensus
  import opened ChainSelection
  import opened Order
  import opened Acceptance
  import opened Replay
  import opened Oracle
  import opened Dags

  datatype SnapshotError =
    | BadMagic
    | UnsupportedVersion(version: nat)
    | Malformed(error: DecodeError)
    | Rebuild(refusal: DagError)

  datatype DagSnapshot = DagSnapshot(k: nat, blocks: seq<Block>)

  /** "KVDG" */
  const MAGIC: Bytes := [75, 86, 68, 71]
  const VERSION: nat := 3

  /** Lengths that fit the machine word they are written in. */
  predicate Storable(b: Block) {
    |b.parents| < TWO_64 && FitsWord(b.payload)
  }

  /** What building a block makes of decoded fields: the parents end up sorted. */
  function Rebuilt(b: Block): Block {
    MakeBlock(b.parents, b.work, b.timestamp, b.nonce, b.payload)
  }

  function RebuiltAll(s: seq<Block>): (r: seq<Block>)
    ensures |r| == |s| && forall i {:trigger r[i]} :: 0 <= i < |s| ==> r[i] == Rebuilt(s[i])
  {
    seq(|s|, i requires 0 <= i < |s| => Rebuilt(s[i]))
  }

  // ------------------------------------------------------------------
  // The block encoding determines the block

  lemma IdsSplit()
    ensures SelfDelimiting(IdBytes, Any) && FixedWidth(IdBytes, 32)
  {
    Widths();
    forall a, b, r, r' ensures Splits(IdBytes, a, b, r, r') {
      if IdBytes(a) + r == IdBytes(b) + r' {
        SameBe(a as nat, b as nat, 32, r, r');
      }
    }
    forall a ensures |IdBytes(a)| == 32 {
      BeRoundTrip(a as nat, 32);
    }
  }

  lemma RestSplits(a: Block, b: Block, r: Bytes, r': Bytes)
    requires Storable(a) && Storable(b) && EncodeRest(a) + r == EncodeRest(b) + r'
    ensures a.work == b.work && a.timestamp == b.timestamp && a.nonce == b.nonce && a.payload == b.payload && r == r'
  {
    Widths();
    hide ToLe, EncodeRaw, Pow256;
    var pa, pb := EncodeRaw(a.payload) + r, EncodeRaw(b.payload) + r';
    var na, nb := ToLe(a.nonce, 8) + pa, ToLe(b.nonce, 8) + pb;
    var ta, tb := ToLe(a.timestamp, 8) + na, ToLe(b.timestamp, 8) + nb;
    assert EncodeRest(a) + r == ToLe(a.work, 16) + ta;
    assert EncodeRest(b) + r' == ToLe(b.work, 16) + tb;
    SameLe(a.work, b.work, 16, ta, tb);
    SameLe(a.timestamp, b.timestamp, 8, na, nb);
    SameLe(a.nonce, b.nonce, 8, pa, pb);
    RawSplits(a.payload, b.payload, r, r');
  }

  /** No two blocks share an encoding, whatever follows it. */
  lemma BlocksSplit()
    ensures SelfDelimiting(Encode, Storable)
  {
    IdsSplit();
    hide EncodeList, EncodeRest, SelfDelimiting, FixedWidth;
    forall a, b, r, r' | Storable(a) && Storable(b) ensures Splits(Encode, a, b, r, r') {
      if Encode(a) + r == Encode(b) + r' {
        BlockParts(a, r);
        BlockParts(b, r');
        ListSplits(IdBytes, Any, a.parents, b.parents, EncodeRest(a) + r, EncodeRest(b) + r');
        RestSplits(a, b, r, r');
      }
    }
    SplitsEverywhere();
  }

  lemma SplitsEverywhere()
    requires forall a, b, r, r' {:trigger Splits(Encode, a, b, r, r')} ::
               Storable(a) && Storable(b) ==> Splits(Encode, a, b, r, r')
    ensures SelfDelimiting(Encode, Storable)
  {
  }

  lemma BlockParts(b: Block, tail: Bytes)
    ensures Encode(b) + tail == EncodeList(IdBytes, b.parents) + (EncodeRest(b) + tail)
  {
    hide EncodeList, EncodeRest;
  }

  lemma BlockMinimum(b: Block)
    ensures |Encode(b)| >= 48
  {
    ToLeLength(|b.parents|, 8);
    ToLeLength(b.work, 16);
    ToLeLength(b.timestamp, 8);
    ToLeLength(b.nonce, 8);
    ToLeLength(|b.payload|, 8);
  }

  /** The one block whose encoding these bytes are. */
  ghost function BlockOf(bytes: Bytes): Result<Block, DecodeError> {
    if exists b :: Stands(bytes, b, []) then
      var b :| Stands(bytes, b, []);
      Ok(Rebuilt(b))
    else if exists b, extra :: Stands(bytes, b, extra) then Err(TrailingBytes)
    else Err(UnexpectedEof)
  }

  ghost predicate Stands(bytes: Bytes, b: Block, extra: Bytes) {
    Storable(b) && bytes == Encode(b) + extra
  }

  lemma BlockDecodes(b: Block, extra: Bytes)
    requires Storable(b)
    ensures BlockOf(Encode(b) + extra) == if extra == [] then Ok(Rebuilt(b)) else Err(TrailingBytes)
  {
    BlocksSplit();
    hide Encode, SelfDelimiting;
    var bytes := Encode(b) + extra;
    assert Stands(bytes, b, extra);
    forall c, x | Stands(bytes, c, x) ensures c == b && x == extra {
      assert Splits(Encode, b, c, extra, x) by {
        SplitsHere(b, c, extra, x);
      }
    }
  }

  lemma SplitsHere(a: Block, b: Block, r: Bytes, r': Bytes)
    requires SelfDelimiting(Encode, Storable) && Storable(a) && Storable(b)
    ensures Splits(Encode, a, b, r, r')
  {
  }

  /** A stored block decodes to itself exactly when its parents are listed in ascending
      order, as every block built keeps them. */
  lemma BlockRoundTrip(b: Block)
    requires Storable(b)
    ensures BlockOf(Encode(b)) == Ok(b) <==> Ascending(b.parents)
    ensures BlockOf(Encode(b)).Ok? && Encode(BlockOf(Encode(b)).value) == Encode(b) <==> Ascending(b.parents)
  {
    assert Encode(b) + [] == Encode(b);
    BlockDecodes(b, []);
    SortIdsSorts(b.parents);
    if Ascending(b.parents) {
      SortIdsStable(b.parents);
    } else if Encode(Rebuilt(b)) == Encode(b) {
      BlocksSplit();
      SortedLength(b.parents);
      SplitsHere(b, Rebuilt(b), [], []);
    }
  }

  lemma {:induction false} SortedLength(s: seq<BlockId>)
    ensures |SortIds(s)| <= |s|
  {
    if s != [] {
      SortedLength(s[1..]);
      InsertLength(SortIds(s[1..]), s[0]);
    }
  }

  lemma {:induction false} InsertLength(s: seq<BlockId>, id: BlockId)
    ensures |InsertId(s, id)| <= |s| + 1
  {
    if s != [] {
      InsertLength(s[1..], id);
    }
  }

  // ------------------------------------------------------------------
  // Reading blocks

  method ReadId(reader: Reader) returns (r: Option<BlockId>)
    requires reader.Valid()
    modifies reader
    ensures reader.Valid() && ReadsItem(IdBytes, Any, old(reader.Rest()), r, reader.Rest())
  {
    IdsSplit();
    Widths();
    hide ToBe, Pow256, SelfDelimiting;
    var id := reader.ReadBe(32);
    if id.None? {
      return None;
    }
    r := Some(id.value as BlockId);
  }

  method ReadIds(reader: Reader) returns (r: Option<seq<BlockId>>)
    requires reader.Valid()
    modifies reader
    ensures reader.Valid() && ReadsList(IdBytes, Any, old(reader.Rest()), r, reader.Rest())
  {
    IdsSplit();
    hide SelfDelimiting, ReadsItem, ReadsList, EncodeAll, IdBytes, ToLe;
    ghost var start := reader.Rest();
    var count := reader.ReadCount(32);
    if count.None? {
      CountRefusesList(IdBytes, Any, 32, start, reader.Rest());
      return None;
    }
    var n := count.value;
    var ids: seq<BlockId> := [];
    NothingYet(IdBytes, start, n, reader.Rest());
    while |ids| < n
      invariant reader.Valid() && |ids| <= n
      invariant start == ToLe(n, 8) + (EncodeAll(IdBytes, ids) + reader.Rest())
    {
      ghost var rest := reader.Rest();
      var id := ReadId(reader);
      if id.None? {
        ItemRefusesList(IdBytes, Any, start, n, ids, rest, reader.Rest());
        return None;
      }
      ItemGiven(IdBytes, Any, rest, id, reader.Rest());
      ItemExtends(IdBytes, start, n, ids, rest, id.value, reader.Rest());
      ids := ids + [id.value];
    }
    ListRead(IdBytes, Any, start, n, ids, reader.Rest());
    r := Some(ids);
  }

  /** The fields after the parents. */
  method ReadRest(reader: Reader, parents: seq<BlockId>) returns (r: Option<Block>)
    requires reader.Valid() && |parents| < TWO_64
    modifies reader
    ensures reader.Valid()
    ensures r.Some? ==>
              && Storable(r.value) && r.value.parents == parents
              && old(reader.Rest()) == EncodeRest(r.value) + reader.Rest()
    ensures r.None? ==>
              forall b, tail {:trigger EncodeRest(b) + tail} ::
                Storable(b) ==> old(reader.Rest()) != EncodeRest(b) + tail
  {
    Widths();
    RestWidth();
    hide ToLe, Pow256, EncodeRaw;
    ghost var start := reader.Rest();
    var work := reader.ReadLe(16);
    if work.None? {
      return None;
    }
    var timestamp := reader.ReadLe(8);
    if timestamp.None? {
      return None;
    }
    var nonce := reader.ReadLe(8);
    if nonce.None? {
      return None;
    }
    ghost var last := reader.Rest();
    ghost var fields := Block([], work.value, timestamp.value, nonce.value, []);
    FixedFields(fields, start, last);
    var payload := ReadRaw(reader);
    if payload.None? {
      forall b, tail | Storable(b) ensures start != EncodeRest(b) + tail {
        OnlyPayload(fields, b, start, last, tail);
      }
      return None;
    }
    r := Some(Block(parents, work.value, timestamp.value, nonce.value, payload.value));
    FixedFields(r.value, start, last);
    assert last == EncodeRaw(payload.value) + reader.Rest();
    RestParts(r.value, reader.Rest());
  }

  /** The fields before the payload. */
  ghost function EncodeFixed(b: Block): Bytes {
    ToLe(b.work, 16) + (ToLe(b.timestamp, 8) + ToLe(b.nonce, 8))
  }

  lemma RestParts(b: Block, tail: Bytes)
    ensures EncodeRest(b) + tail == EncodeFixed(b) + (EncodeRaw(b.payload) + tail)
  {
    hide ToLe, EncodeRaw;
  }

  lemma FixedFields(b: Block, start: Bytes, last: Bytes)
    requires start == ToLe(b.work, 16) + (ToLe(b.timestamp, 8) + (ToLe(b.nonce, 8) + last))
    ensures start == EncodeFixed(b) + last
  {
    hide ToLe;
  }

  lemma RestWidth()
    ensures forall b, tail {:trigger EncodeRest(b) + tail} :: |EncodeRest(b) + tail| >= 32
  {
    forall b, tail ensures |EncodeRest(b) + tail| >= 32 {
      ToLeLength(b.work, 16);
      ToLeLength(b.timestamp, 8);
      ToLeLength(b.nonce, 8);
    }
  }

  lemma OnlyPayload(a: Block, b: Block, start: Bytes, last: Bytes, tail: Bytes)
    requires start == EncodeFixed(a) + last
    ensures start == EncodeRest(b) + tail ==> last == EncodeRaw(b.payload) + tail
  {
    hide EncodeRaw;
    RestParts(b, tail);
    ToLeLength(a.work, 16);
    ToLeLength(a.timestamp, 8);
    ToLeLength(a.nonce, 8);
    ToLeLength(b.work, 16);
    ToLeLength(b.timestamp, 8);
    ToLeLength(b.nonce, 8);
    if start == EncodeRest(b) + tail {
      SplitEqual(EncodeFixed(a), EncodeFixed(b), last, EncodeRaw(b.payload) + tail);
    }
  }

  /** Read one block; `raw` has the parents as stored. */
  method ReadBlock(reader: Reader) returns (r: Option<Block>, ghost raw: Option<Block>)
    requires reader.Valid()
    modifies reader
    ensures reader.Valid() && ReadsItem(Encode, Storable, old(reader.Rest()), raw, reader.Rest())
    ensures r == match raw case None => None case Some(b) => Some(Rebuilt(b))
  {
    hide EncodeList, EncodeRest, Rebuilt;
    IdsSplit();
    hide SelfDelimiting, FixedWidth;
    ghost var start := reader.Rest();
    var parents := ReadIds(reader);
    if parents.None? {
      forall b, tail | Storable(b) ensures start != Encode(b) + tail {
        BlockParts(b, tail);
      }
      return None, None;
    }
    ghost var rest := reader.Rest();
    var fields := ReadRest(reader, parents.value);
    if fields.None? {
      forall b, tail | Storable(b) ensures start != Encode(b) + tail {
        BlockParts(b, tail);
        OnlyParents(parents.value, b, start, rest, tail);
      }
      return None, None;
    }
    raw := fields;
    BlockParts(fields.value, reader.Rest());
    r := Some(Rebuilt(fields.value));
  }

  lemma OnlyParents(parents: seq<BlockId>, b: Block, start: Bytes, rest: Bytes, tail: Bytes)
    requires SelfDelimiting(IdBytes, Any) && |parents| < TWO_64 && Storable(b)
    requires start == EncodeList(IdBytes, parents) + rest
    ensures start == Encode(b) + tail ==> rest == EncodeRest(b) + tail
  {
    hide EncodeList, EncodeRest, Encode;
    BlockParts(b, tail);
    if start == Encode(b) + tail {
      ListSplits(IdBytes, Any, parents, b.parents, rest, EncodeRest(b) + tail);
    }
  }

  /** Decode one stored block. */
  method DecodeBlock(bytes: Bytes) returns (r: Result<Block, DecodeError>)
    ensures r == BlockOf(bytes)
  {
    hide Encode, Rebuilt;
    var reader := new Reader(bytes);
    var block, raw := ReadBlock(reader);
    if block.None? {
      forall b, extra ensures !Stands(bytes, b, extra) {
        assert Storable(b) ==> bytes != Encode(b) + extra;
      }
      return Err(UnexpectedEof);
    }
    BlockDecodes(raw.value, reader.Rest());
    if reader.Remaining() != 0 {
      return Err(TrailingBytes);
    }
    r := Ok(block.value);
  }

  // ------------------------------------------------------------------
  // Whole snapshots

  /** The bytes of a snapshot. */
  function EncodeSnapshot(k: nat, blocks: seq<Block>): Bytes {
    MAGIC + (ToLe(VERSION, 2) + (ToLe(k, 2) + EncodeList(Encode, blocks)))
  }

  /** The parameter in a snapshot's eight-byte header, or what is wrong with it. */
  ghost function HeaderOf(bytes: Bytes): (r: Result<nat, SnapshotError>)
    ensures r.Ok? ==> |bytes| >= 8
  {
    if |bytes| < 4 then Err(Malformed(UnexpectedEof))
    else if bytes[..4] != MAGIC then Err(BadMagic)
    else if |bytes| < 6 then Err(Malformed(UnexpectedEof))
    else if FromLe(bytes[4..6]) != VERSION then Err(UnsupportedVersion(FromLe(bytes[4..6])))
    else if |bytes| < 8 then Err(Malformed(UnexpectedEof))
    else Ok(FromLe(bytes[6..8]))
  }

  /** What decoding a snapshot must give. */
  ghost function SnapshotOf(bytes: Bytes): Result<DagSnapshot, SnapshotError> {
    match HeaderOf(bytes)
    case Err(e) => Err(e)
    case Ok(k) =>
      match Decoded(Encode, Storable, bytes[8..])
      case Err(e) => Err(Malformed(e))
      case Ok(raws) => Ok(DagSnapshot(k, RebuiltAll(raws)))
  }

  /** The eight bytes in front: the letters KVDG, version 3 and the parameter. Anything else there is
      refused, the letters first. */
  lemma HeaderSpelledOut(k: nat, blocks: seq<Block>, bytes: Bytes)
    requires k < TWO_16
    ensures |EncodeSnapshot(k, blocks)| >= 8
    ensures EncodeSnapshot(k, blocks)[..8] == [75, 86, 68, 71, 3, 0, (k % 256) as byte, (k / 256) as byte]
    ensures |bytes| >= 4 && bytes[..4] != [75, 86, 68, 71] ==> SnapshotOf(bytes) == Err(BadMagic)
    ensures |bytes| >= 6 && bytes[..4] == [75, 86, 68, 71] && (bytes[4] != 3 || bytes[5] != 0) ==>
              SnapshotOf(bytes) == Err(UnsupportedVersion(bytes[4] as nat + 256 * bytes[5] as nat))
    ensures |bytes| < 4 || (bytes[..4] == [75, 86, 68, 71] && |bytes| < 6) ==>
              SnapshotOf(bytes) == Err(Malformed(UnexpectedEof))
  {
    ShortNumbers(k);
    hide Decoded, EncodeList, RebuiltAll;
    var e := EncodeSnapshot(k, blocks);
    assert e == MAGIC + ToLe(VERSION, 2) + ToLe(k, 2) + EncodeList(Encode, blocks);
    if |bytes| >= 6 {
      assert bytes[4..6] == [bytes[4], bytes[5]];
      TwoBytes(bytes[4], bytes[5]);
    }
  }

  lemma TwoBytes(a: byte, b: byte)
    ensures FromLe([a, b]) == a as nat + 256 * b as nat
  {
    assert [a, b][1..] == [b] && [b][1..] == [];
    assert FromLe([b]) == b as nat;
  }

  lemma ShortNumbers(k: nat)
    requires k < TWO_16
    ensures ToLe(VERSION, 2) == [3, 0] && ToLe(k, 2) == [(k % 256) as byte, (k / 256) as byte]
  {
    assert ToLe(k / 256, 1) == [(k / 256 % 256) as byte] + ToLe(k / 256 / 256, 0);
    assert ToLe(VERSION / 256, 1) == [(VERSION / 256 % 256) as byte] + ToLe(VERSION / 256 / 256, 0);
  }

  method ReadBlocks(reader: Reader) returns (r: Option<seq<Block>>, ghost raws: Option<seq<Block>>)
    requires reader.Valid()
    modifies reader
    ensures reader.Valid() && ReadsList(Encode, Storable, old(reader.Rest()), raws, reader.Rest())
    ensures r == match raws case None => None case Some(s) => Some(RebuiltAll(s))
  {
    BlocksSplit();
    hide SelfDelimiting, ReadsItem, ReadsList, EncodeAll, Encode, ToLe, Storable, Rebuilt;
    ghost var start := reader.Rest();
    var count := reader.ReadCount(48);
    if count.None? {
      forall b ensures |Encode(b)| >= 48 {
        BlockMinimum(b);
      }
      CountRefusesList(Encode, Storable, 48, start, reader.Rest());
      return None, None;
    }
    var n := count.value;
    var blocks: seq<Block> := [];
    ghost var kept: seq<Block> := [];
    NothingYet(Encode, start, n, reader.Rest());
    while |blocks| < n
      invariant reader.Valid() && |blocks| <= n && blocks == RebuiltAll(kept)
      invariant forall b :: b in kept ==> Storable(b)
      invariant start == ToLe(n, 8) + (EncodeAll(Encode, kept) + reader.Rest())
    {
      ghost var rest := reader.Rest();
      var block, raw := ReadBlock(reader);
      if block.None? {
        ItemRefusesList(Encode, Storable, start, n, kept, rest, reader.Rest());
        return None, None;
      }
      ItemGiven(Encode, Storable, rest, raw, reader.Rest());
      ItemExtends(Encode, start, n, kept, rest, raw.value, reader.Rest());
      blocks := blocks + [block.value];
      kept := kept + [raw.value];
    }
    ListRead(Encode, Storable, start, n, kept, reader.Rest());
    r, raws := Some(blocks), Some(kept);
  }

  method ReadHeader(reader: Reader) returns (r: Result<nat, SnapshotError>)
    requires reader.Valid() && reader.pos == 0
    modifies reader
    ensures reader.Valid() && r == HeaderOf(reader.buf)
    ensures r.Ok? ==> reader.Rest() == reader.buf[8..]
  {
    hide FromLe, ToLe, Pow256;
    ghost var bytes := reader.buf;
    var magic := reader.ReadArray(4);
    if magic.None? {
      return Err(Malformed(UnexpectedEof));
    }
    assert magic.value == bytes[..4] && reader.Rest() == bytes[4..];
    if magic.value != MAGIC {
      return Err(BadMagic);
    }
    var version := reader.ReadLe(2);
    if version.None? {
      return Err(Malformed(UnexpectedEof));
    }
    LeAt(bytes, 4, 2, version.value, reader.Rest());
    if version.value != VERSION {
      return Err(UnsupportedVersion(version.value));
    }
    var k := reader.ReadLe(2);
    if k.None? {
      return Err(Malformed(UnexpectedEof));
    }
    LeAt(bytes, 6, 2, k.value, reader.Rest());
    r := Ok(k.value);
  }

  /** Decode a snapshot's framing into `k` and its ordered blocks. */
  method DecodeSnapshot(bytes: Bytes) returns (r: Result<DagSnapshot, SnapshotError>)
    ensures r == SnapshotOf(bytes)
  {
    hide Encode, Decoded, ReadsList, RebuiltAll, HeaderOf;
    var reader := new Reader(bytes);
    var k := ReadHeader(reader);
    if k.Err? {
      return Err(k.error);
    }
    var blocks, raws := ReadBlocks(reader);
    BlocksSplit();
    hide SelfDelimiting;
    DecodedByReading(Encode, Storable, bytes[8..], raws, reader.Rest());
    if blocks.None? {
      return Err(Malformed(UnexpectedEof));
    }
    if reader.Remaining() != 0 {
      return Err(Malformed(TrailingBytes));
    }
    r := Ok(DagSnapshot(k.value, blocks.value));
  }

  lemma LeAt(bytes: Bytes, at: nat, n: nat, x: nat, rest: Bytes)
    requires at + n <= |bytes| && x < Pow256(n) && bytes[at..] == ToLe(x, n) + rest
    ensures FromLe(bytes[at..at + n]) == x && rest == bytes[at + n..]
  {
    ToLeLength(x, n);
    FromToLe(x, n);
    assert bytes[at..][..n] == bytes[at..at + n];
    assert bytes[at..][n..] == bytes[at + n..];
  }

  /** Decoding a written snapshot gives back its blocks. */
  lemma SnapshotDecodes(k: nat, blocks: seq<Block>)
    requires k < TWO_16 && ListOk(Storable, blocks) && forall b :: b in blocks ==> Ascending(b.parents)
    ensures SnapshotOf(EncodeSnapshot(k, blocks)) == Ok(DagSnapshot(k, blocks))
  {
    var bytes, list := EncodeSnapshot(k, blocks), EncodeList(Encode, blocks);
    Widths();
    ToLeLength(VERSION, 2);
    ToLeLength(k, 2);
    hide Encode, EncodeList, ToLe, Pow256;
    assert bytes[4..] == ToLe(VERSION, 2) + (ToLe(k, 2) + list);
    LeAt(bytes, 4, 2, VERSION, ToLe(k, 2) + list);
    LeAt(bytes, 6, 2, k, list);
    BlocksSplit();
    hide SelfDelimiting;
    DecodeEncode(Encode, Storable, blocks, []);
    assert list + [] == list;
    forall i | 0 <= i < |blocks| ensures Rebuilt(blocks[i]) == blocks[i] {
      SortIdsStable(blocks[i].parents);
    }
    assert RebuiltAll(blocks) == blocks;
  }

  // ------------------------------------------------------------------
  // Writing and replaying a DAG

  /** A DAG restored from a snapshot enforces nothing beyond structure. */
  const NO_RULES := Rules(None, None, false)

  lemma NoRules()
    ensures NO_RULES == Rules(None, None, false)
  {
  }

  lemma OrderStored(k: nat, genesis: BlockId, nodes: Nodes, tips: set<BlockId>)
    requires Consistent(k, genesis, nodes, tips) && Lineages(nodes)
    ensures nodes != map[]
    ensures var order := Linearization(nodes, HeaviestBlock(nodes));
            && Topological(GraphOf(nodes), order) && Elements(order) == nodes.Keys
            && forall b :: b in order ==> b in nodes
  {
    var tip := HeaviestBlock(nodes);
    LinearizationIsTopological(k, genesis, nodes, tips, tip);
    var order := Linearization(nodes, tip);
    assert forall b :: b in order ==> b in Elements(order);
  }

  /** The blocks of the DAG in linearized order: what a snapshot holds. */
  ghost function LogOf(k: nat, genesis: BlockId, nodes: Nodes, tips: set<BlockId>): seq<Block>
    requires Consistent(k, genesis, nodes, tips) && Lineages(nodes)
  {
    OrderStored(k, genesis, nodes, tips);
    BlocksIn(nodes, Linearization(nodes, HeaviestBlock(nodes)))
  }

  /** Append the stored encoding of a block to a buffer. */
  method EncodeBlockInto(block: Block, buf0: Bytes) returns (buf: Bytes)
    ensures buf == buf0 + Encode(block)
  {
    hide ToLe, ToBe, EncodeRaw;
    var ps := block.parents;
    buf := buf0 + ToLe(|ps|, 8);
    ghost var start := buf;
    assert ps[..0] == [];
    for i := 0 to |ps|
      invariant buf == start + EncodeAll(IdBytes, ps[..i])
    {
      assert ps[..i + 1] == ps[..i] + [ps[i]];
      EncodeSnoc(IdBytes, ps[..i], ps[i]);
      buf := buf + IdBytes(ps[i]);
      assert start + EncodeAll(IdBytes, ps[..i]) + IdBytes(ps[i]) ==
             start + (EncodeAll(IdBytes, ps[..i]) + IdBytes(ps[i]));
    }
    assert ps[..|ps|] == ps;
    ghost var middle := buf;
    buf := buf + ToLe(block.work, 16);
    buf := buf + ToLe(block.timestamp, 8);
    buf := buf + ToLe(block.nonce, 8);
    buf := buf + ToLe(|block.payload|, 8);
    buf := buf + block.payload;
    BlockAppended(buf0, block, middle, buf);
  }

  lemma BlockAppended(buf0: Bytes, b: Block, middle: Bytes, buf: Bytes)
    requires middle == buf0 + ToLe(|b.parents|, 8) + EncodeAll(IdBytes, b.parents)
    requires buf ==
             middle + ToLe(b.work, 16) + ToLe(b.timestamp, 8) + ToLe(b.nonce, 8) + ToLe(|b.payload|, 8) + b.payload
    ensures buf == buf0 + Encode(b)
  {
    hide ToLe, EncodeAll;
    var p := ToLe(|b.payload|, 8) + b.payload;
    assert buf == middle + ToLe(b.work, 16) + ToLe(b.timestamp, 8) + ToLe(b.nonce, 8) + p;
    assert buf == middle + EncodeRest(b);
    assert middle == buf0 + EncodeList(IdBytes, b.parents);
  }

  /** Serialise a DAG: its parameter and its blocks in linearized order. */
  method WriteSnapshot(dag: Dag) returns (bytes: Bytes)
    requires dag.Valid()
    ensures Consistent(dag.k, dag.genesis, dag.nodes, dag.tips) && Lineages(dag.nodes)
    ensures bytes == EncodeSnapshot(dag.k, LogOf(dag.k, dag.genesis, dag.nodes, dag.tips))
  {
    hide *;
    dag.Unfolded();
    OrderStored(dag.k, dag.genesis, dag.nodes, dag.tips);
    var order := dag.Linearize();
    ghost var log := LogOf(dag.k, dag.genesis, dag.nodes, dag.tips);
    LogIs(dag.k, dag.genesis, dag.nodes, dag.tips, order);
    bytes := MAGIC;
    bytes := bytes + ToLe(VERSION, 2);
    bytes := bytes + ToLe(dag.k, 2);
    bytes := bytes + ToLe(|order|, 8);
    ghost var start := bytes;
    assert log[..0] == [];
    NothingWritten(start);
    for i := 0 to |order|
      invariant bytes == start + EncodeAll(Encode, log[..i])
    {
      assert log[..i + 1] == log[..i] + [log[i]];
      EncodeSnoc(Encode, log[..i], log[i]);
      bytes := EncodeBlockInto(dag.nodes[order[i]].block, bytes);
      assert start + EncodeAll(Encode, log[..i]) + Encode(log[i]) ==
             start + (EncodeAll(Encode, log[..i]) + Encode(log[i]));
    }
    assert log[..|log|] == log;
    SnapshotParts(dag.k, log);
  }

  lemma NothingWritten(start: Bytes)
    ensures start == start + EncodeAll(Encode, [])
  {
  }

  lemma LogIs(k: nat, genesis: BlockId, nodes: Nodes, tips: set<BlockId>, order: seq<BlockId>)
    requires Consistent(k, genesis, nodes, tips) && Lineages(nodes) && nodes != map[]
    requires order == Linearization(nodes, HeaviestBlock(nodes))
    ensures var log := LogOf(k, genesis, nodes, tips);
            && |log| == |order| && (forall b :: b in order ==> b in nodes) && log == BlocksIn(nodes, order)
            && forall i {:trigger log[i]} :: 0 <= i < |order| ==> order[i] in nodes && log[i] == nodes[order[i]].block
  {
    OrderStored(k, genesis, nodes, tips);
    hide Consistent, Linearization, Topological;
    forall i {:trigger order[i]} | 0 <= i < |order| ensures order[i] in nodes {
    }
  }

  lemma SnapshotParts(k: nat, log: seq<Block>)
    ensures EncodeSnapshot(k, log) == MAGIC + ToLe(VERSION, 2) + ToLe(k, 2) + ToLe(|log|, 8) + EncodeAll(Encode, log)
  {
    hide ToLe, EncodeAll;
  }

  /** A snapshot of `n` bytes holds few enough blocks to label. */
  lemma FewBlocks(bytes: Bytes)
    requires |bytes| < TWO_64 && SnapshotOf(bytes).Ok?
    ensures |SnapshotOf(bytes).value.blocks| < ROOT_CAPACITY
  {
    var raws := Decoded(Encode, Storable, bytes[8..]).value;
    EncodeDecode(Encode, Storable, bytes[8..]);
    forall b ensures |Encode(b)| >= 48 {
      BlockMinimum(b);
    }
    hide Encode, Decoded;
    MinimumLength(Encode, 48, raws);
  }

  lemma {:induction false} AcceptedFront(k: nat, rules: Rules, gen: Block, blocks: seq<Block>, i: nat)
    requires AllAccepted(k, rules, gen, blocks) && i < |blocks|
    ensures && AllAccepted(k, rules, gen, blocks[..i])
            && Refusal(Run(k, rules, gen, blocks[..i]).nodes, rules, blocks[i]).None?
    decreases |blocks|
  {
    hide Refusal, Run;
    if i + 1 < |blocks| {
      var init := blocks[..|blocks| - 1];
      AcceptedFront(k, rules, gen, init, i);
      assert init[..i] == blocks[..i];
    }
  }

  /** Inserting one more block of a replay. */
  lemma ReplayAdvance(k: nat, rules: Rules, gen: Block, blocks: seq<Block>, i: nat)
    requires i < |blocks| && AllAccepted(k, rules, gen, blocks[..i])
    ensures var st := Run(k, rules, gen, blocks[..i]);
            && (Refusal(st.nodes, rules, blocks[i]).None? ==>
                  && AllAccepted(k, rules, gen, blocks[..i + 1])
                  && Run(k, rules, gen, blocks[..i + 1]) == Acceptance.Insert(k, rules, st, blocks[i])
                  && |Run(k, rules, gen, blocks[..i + 1]).nodes| == |st.nodes| + 1)
            && (Refusal(st.nodes, rules, blocks[i]).Some? ==> !AllAccepted(k, rules, gen, blocks))
  {
    var st, front := Run(k, rules, gen, blocks[..i]), blocks[..i + 1];
    assert front[..|front| - 1] == blocks[..i] && front[|front| - 1] == blocks[i];
    hide Run, Refusal, WithBlock, WithTip, StructureRefusal, Lineages, Consistent;
    if Refusal(st.nodes, rules, blocks[i]).None? {
      assert AllAccepted(k, rules, gen, front);
      RunUnfold(k, rules, gen, front);
      NewNode(st.nodes, k, blocks[i]);
      OneMore(st.nodes, WithBlock(st.nodes, k, blocks[i]), Id(blocks[i]));
    } else if AllAccepted(k, rules, gen, blocks) {
      AcceptedFront(k, rules, gen, blocks, i);
    }
  }

  lemma OneMore(nodes: Nodes, nodes': Nodes, id: BlockId)
    requires id !in nodes && nodes'.Keys == nodes.Keys + {id}
    ensures |nodes'| == |nodes| + 1
  {
    assert |nodes'| == |nodes'.Keys| && |nodes| == |nodes.Keys|;
  }

  lemma StartCount(gen: Block)
    ensures |Start(gen).nodes| == 1
  {
    assert Start(gen).nodes.Keys == {Id(gen)};
  }

  /** Block `i` of a replay is the first to be refused, with error `e`. */
  ghost predicate FailsAt(k: nat, rules: Rules, gen: Block, blocks: seq<Block>, i: nat, e: DagError) {
    && i < |blocks| && AllAccepted(k, rules, gen, blocks[..i])
    && Refusal(Run(k, rules, gen, blocks[..i]).nodes, rules, blocks[i]) == Some(e)
  }

  lemma FailedAt(k: nat, rules: Rules, gen: Block, blocks: seq<Block>, i: nat, e: DagError)
    requires i < |blocks| && AllAccepted(k, rules, gen, blocks[..i])
    requires Refusal(Run(k, rules, gen, blocks[..i]).nodes, rules, blocks[i]) == Some(e)
    ensures FailsAt(k, rules, gen, blocks, i, e)
  {
    hide AllAccepted, Run, Refusal;
  }

  /** Rebuild a DAG from a snapshot by replaying its blocks through `Insert`. */
  method ReadSnapshot(bytes: Bytes) returns (r: Result<Dag, SnapshotError>)
    requires |bytes| < TWO_64
    ensures match SnapshotOf(bytes)
            case Err(e) => r == Err(e)
            case Ok(snap) =>
              if snap.blocks == [] then r == Err(Malformed(UnexpectedEof))
              else
                && (r.Ok? <==> AllAccepted(snap.k, NO_RULES, snap.blocks[0], snap.blocks[1..]))
                && (r.Err? ==>
                      && r.error.Rebuild?
                      && exists i: nat ::
                           FailsAt(snap.k, NO_RULES, snap.blocks[0], snap.blocks[1..], i, r.error.refusal))
                && (r.Ok? ==> fresh(r.value) && fresh(r.value.reach) && r.value.Valid() && r.value.k == snap.k
                              && State(r.value.nodes, r.value.tips) == Run(snap.k, NO_RULES, snap.blocks[0],
                                                                           snap.blocks[1..]))
  {
    hide *;
    var snapshot := DecodeSnapshot(bytes);
    if snapshot.Err? {
      return Err(snapshot.error);
    }
    FewBlocks(bytes);
    var k, blocks := snapshot.value.k, snapshot.value.blocks;
    if blocks == [] {
      return Err(Malformed(UnexpectedEof));
    }
    var dag := new Dag(k, blocks[0]);
    dag.RulesNow();
    NoRules();
    var rest := blocks[1..];
    assert rest[..0] == [];
    RunEmpty(k, NO_RULES, blocks[0]);
    StartCount(blocks[0]);
    for i := 0 to |rest|
      invariant fresh(dag) && fresh(dag.reach) && dag.Valid() && dag.k == k && dag.CurrentRules() == NO_RULES
      invariant AllAccepted(k, NO_RULES, blocks[0], rest[..i])
      invariant State(dag.nodes, dag.tips) == Run(k, NO_RULES, blocks[0], rest[..i]) && |dag.nodes| == i + 1
    {
      ReplayAdvance(k, NO_RULES, blocks[0], rest, i);
      dag.RulesNow();
      dag.Unfolded();
      var inserted := dag.Insert(rest[i]);
      dag.RulesNow();
      if inserted.Err? {
        FailedAt(k, NO_RULES, blocks[0], rest, i, inserted.error);
        return Err(Rebuild(inserted.error));
      }
    }
    assert rest[..|rest|] == rest;
    r := Ok(dag);
  }

  /** Blocks as the machine keeps them: parents ascending, lengths within a word. */
  ghost predicate Kept(nodes: Nodes) {
    forall b {:trigger nodes[b]} :: b in nodes ==> Storable(nodes[b].block) && Ascending(nodes[b].block.parents)
  }

  /** Reading back a written snapshot always succeeds and restores the same DAG: blocks,
      colouring, past sizes, children and tips. */
  lemma SnapshotRestores(k: nat, genesis: BlockId, nodes: Nodes, tips: set<BlockId>)
    requires Consistent(k, genesis, nodes, tips) && Lineages(nodes) && Identified(nodes)
    requires Kept(nodes) && k < TWO_16 && |nodes| < TWO_64
    ensures var log := LogOf(k, genesis, nodes, tips);
            && log != []
            && SnapshotOf(EncodeSnapshot(k, log)) == Ok(DagSnapshot(k, log))
            && AllAccepted(k, NO_RULES, log[0], log[1..])
            && Run(k, NO_RULES, log[0], log[1..]) == State(nodes, tips)
  {
    OrderStored(k, genesis, nodes, tips);
    var order, log := Linearization(nodes, HeaviestBlock(nodes)), LogOf(k, genesis, nodes, tips);
    LogIs(k, genesis, nodes, tips, order);
    DistinctCount(order);
    hide Consistent, Linearization, Topological, LogOf, Run, AllAccepted;
    forall i {:trigger log[i]} | 0 <= i < |log| ensures Storable(log[i]) && Ascending(log[i].parents) {
    }
    assert |nodes.Keys| == |nodes|;
    SnapshotDecodes(k, log);
    ReplayRebuilds(k, genesis, nodes, tips, NO_RULES, order);
  }

  /** `read_snapshot(write_snapshot(dag))`: the copy is the original, and writes the same bytes. */
  method Restore(dag: Dag) returns (copy: Dag, bytes: Bytes, again: Bytes)
    requires dag.Valid() && Kept(dag.nodes) && dag.k < TWO_16 && |dag.nodes| < TWO_64
    requires Consistent(dag.k, dag.genesis, dag.nodes, dag.tips) && Lineages(dag.nodes)
    requires |EncodeSnapshot(dag.k, LogOf(dag.k, dag.genesis, dag.nodes, dag.tips))| < TWO_64
    ensures fresh(copy) && copy.Valid() && copy.k == dag.k && copy.nodes == dag.nodes && copy.tips == dag.tips
    ensures again == bytes
  {
    hide *;
    dag.Unfolded();
    bytes := WriteSnapshot(dag);
    SnapshotRestores(dag.k, dag.genesis, dag.nodes, dag.tips);
    var read := ReadSnapshot(bytes);
    copy := read.value;
    copy.Unfolded();
    OneGenesis(dag.k, dag.genesis, copy.genesis, dag.nodes, dag.tips);
    again := WriteSnapshot(copy);
  }

  lemma OneGenesis(k: nat, a: BlockId, b: BlockId, nodes: Nodes, tips: set<BlockId>)
    requires Consistent(k, a, nodes, tips) && Consistent(k, b, nodes, tips)
    ensures a == b
  {
    assert RootedAt(nodes, a, a) && RootedAt(nodes, b, a);
  }
}
