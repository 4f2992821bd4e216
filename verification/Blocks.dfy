/** Blocks, in the form they are kept, and their content-addressed identifiers. */
module Blocks {
  import opened Types
  import opened Bytes
  import opened Encodings

  /** A vertex of the DAG. `parents` is empty only for genesis. */
  datatype Block = Block(parents: seq<BlockId>, work: u128, timestamp: u64, nonce: u64, payload: Bytes)

  /** The digest function behind every identifier. Nothing is assumed about it. */
  const Blake3: Bytes -> BlockId

  function IdBytes(id: BlockId): Bytes {
    ToBe(id as nat, 32)
  }

  /** The canonical encoding. The stored form of a block is the same bytes. */
  function Encode(b: Block): Bytes {
    EncodeList(IdBytes, b.parents) + EncodeRest(b)
  }

  /** The fields after the parents. */
  function EncodeRest(b: Block): Bytes {
    ToLe(b.work, 16) + (ToLe(b.timestamp, 8) + (ToLe(b.nonce, 8) + EncodeRaw(b.payload)))
  }

  function Id(b: Block): BlockId {
    Blake3(Encode(b))
  }

  /** Insert into an ascending list, dropping a duplicate. */
  function InsertId(s: seq<BlockId>, id: BlockId): seq<BlockId> {
    if s == [] || id < s[0] then [id] + s
    else if id == s[0] then s
    else [s[0]] + InsertId(s[1..], id)
  }

  /** `sort` followed by `dedup`. */
  function SortIds(s: seq<BlockId>): seq<BlockId> {
    if s == [] then [] else InsertId(SortIds(s[1..]), s[0])
  }

  /** Build a block: parents are sorted and de-duplicated. */
  function MakeBlock(parents: seq<BlockId>, work: u128, timestamp: u64, nonce: u64, payload: Bytes): Block {
    Block(SortIds(parents), work, timestamp, nonce, payload)
  }

  lemma {:induction false} InsertIdSorts(s: seq<BlockId>, id: BlockId)
    requires Ascending(s)
    ensures Ascending(InsertId(s, id))
    ensures forall x :: x in InsertId(s, id) <==> x in s || x == id
  {
    if s == [] || id < s[0] {
    } else if id == s[0] {
    } else {
      InsertIdSorts(s[1..], id);
      var r := InsertId(s[1..], id);
      assert forall x :: x in s <==> x == s[0] || x in s[1..];
      forall j | 0 <= j < |r| ensures s[0] < r[j] {
        assert r[j] in r;
      }
    }
  }

  /** The parent list a block ends up with: ascending, with the same members. */
  lemma {:induction false} SortIdsSorts(s: seq<BlockId>)
    ensures Ascending(SortIds(s))
    ensures forall x :: x in SortIds(s) <==> x in s
  {
    if s != [] {
      SortIdsSorts(s[1..]);
      InsertIdSorts(SortIds(s[1..]), s[0]);
    }
  }

  /** An ascending list is already in the form a block keeps. */
  lemma {:induction false} SortIdsStable(s: seq<BlockId>)
    requires Ascending(s)
    ensures SortIds(s) == s
  {
    if s != [] {
      SortIdsStable(s[1..]);
      assert |s| > 1 ==> s[0] < s[1];
      assert s == [s[0]] + s[1..];
    }
  }

  lemma HasMember(t: seq<BlockId>)
    requires t != []
    ensures exists x :: x in t
  {
    assert t[0] in t;
  }

  /** Two ascending lists with the same members are equal, so listing parents in
      another order, or twice, gives the same block and the same id. */
  lemma {:induction false} AscendingUnique(s: seq<BlockId>, t: seq<BlockId>)
    requires Ascending(s) && Ascending(t) && forall x :: x in s <==> x in t
    ensures s == t
  {
    if s == [] {
      if t != [] {
        HasMember(t);
      }
    } else {
      assert s[0] in t;
      assert t[0] in s;
      assert s[0] == t[0];
      forall x ensures x in s[1..] <==> x in t[1..] {
        assert x in s <==> x == s[0] || x in s[1..];
        assert x in t <==> x == t[0] || x in t[1..];
        assert x in s[1..] ==> x > s[0];
        assert x in t[1..] ==> x > t[0];
      }
      AscendingUnique(s[1..], t[1..]);
      assert s == [s[0]] + s[1..] && t == [t[0]] + t[1..];
    }
  }

  lemma ParentOrderIrrelevant(ps: seq<BlockId>, qs: seq<BlockId>, work: u128, timestamp: u64, nonce: u64,
                              payload: Bytes)
    requires forall x :: x in ps <==> x in qs
    ensures MakeBlock(ps, work, timestamp, nonce, payload) == MakeBlock(qs, work, timestamp, nonce, payload)
  {
    SortIdsSorts(ps);
    SortIdsSorts(qs);
    AscendingUnique(SortIds(ps), SortIds(qs));
  }
}
