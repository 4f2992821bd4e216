/** Transactions and their canonical encoding. */
module Transactions {
  import opened Types
  import opened Bytes
  import opened Encodings
  import opened Blocks

  /** A transaction id and an address are 32 bytes, a signature is 64. */
  newtype TxId = x: int | 0 <= x < TWO_256
  newtype Address = x: int | 0 <= x < TWO_256
  newtype Sig = x: int | 0 <= x < TWO_256 * TWO_256

  datatype OutPoint = OutPoint(tx: TxId, index: u32)

  datatype TxInput = TxInput(outpoint: OutPoint, signature: Sig)

  datatype TxOutput = TxOutput(value: u64, owner: Address)

  /** No inputs means coinbase. */
  datatype Transaction = Transaction(inputs: seq<TxInput>, outputs: seq<TxOutput>, tag: Bytes) {
    predicate IsCoinbase() {
      inputs == []
    }
  }

  /** Whether a key owner made this signature over this digest. Nothing is assumed about it. */
  const Verify: (Address, BlockId, Sig) -> bool

  function EncodeOutPoint(o: OutPoint): Bytes {
    ToBe(o.tx as nat, 32) + ToLe(o.index, 4)
  }

  function EncodeSigned(i: TxInput): Bytes {
    EncodeOutPoint(i.outpoint) + ToBe(i.signature as nat, 64)
  }

  function EncodeUnsigned(i: TxInput): Bytes {
    EncodeOutPoint(i.outpoint)
  }

  function EncodeOutput(o: TxOutput): Bytes {
    ToLe(o.value, 8) + ToBe(o.owner as nat, 32)
  }

  function EncodeInput(withSignatures: bool): TxInput -> Bytes {
    if withSignatures then EncodeSigned else EncodeUnsigned
  }

  function EncodeTxWith(tx: Transaction, withSignatures: bool): Bytes {
    EncodeList(EncodeInput(withSignatures), tx.inputs) + (EncodeList(EncodeOutput, tx.outputs) + EncodeRaw(tx.tag))
  }

  /** The full encoding, signatures included. */
  function EncodeTx(tx: Transaction): Bytes {
    EncodeTxWith(tx, true)
  }

  function EncodePayload(txs: seq<Transaction>): Bytes {
    EncodeList(EncodeTx, txs)
  }

  /** The digest every input signs: it covers everything but the signatures. */
  function SigHash(tx: Transaction): BlockId {
    Blake3(EncodeTxWith(tx, false))
  }

  function TxIdOf(tx: Transaction): TxId {
    Blake3(EncodeTx(tx)) as TxId
  }

  /** Lengths that fit the machine word they are written in. */
  predicate Encodable(tx: Transaction) {
    |tx.inputs| < TWO_64 && |tx.outputs| < TWO_64 && |tx.tag| < TWO_64
  }

  ghost predicate AllEncodable(txs: seq<Transaction>) {
    ListOk(Encodable, txs)
  }

  // ------------------------------------------------------------------
  // Encoders

  /** Append the encoding of `tx` to a buffer. */
  method EncodeInto(tx: Transaction, buf0: Bytes, withSignatures: bool) returns (buf: Bytes)
    ensures buf == buf0 + EncodeTxWith(tx, withSignatures)
  {
    hide ToLe, ToBe, EncodeTxWith;
    ghost var f := EncodeInput(withSignatures);
    buf := buf0 + ToLe(|tx.inputs|, 8);
    ghost var start := buf;
    assert tx.inputs[..0] == [];
    for i := 0 to |tx.inputs|
      invariant buf == start + EncodeAll(f, tx.inputs[..i])
    {
      assert tx.inputs[..i + 1] == tx.inputs[..i] + [tx.inputs[i]];
      EncodeSnoc(f, tx.inputs[..i], tx.inputs[i]);
      var input := tx.inputs[i];
      buf := buf + ToBe(input.outpoint.tx as nat, 32);
      buf := buf + ToLe(input.outpoint.index, 4);
      if withSignatures {
        buf := buf + ToBe(input.signature as nat, 64);
      }
      InputAppended(start, f, tx.inputs[..i], input, withSignatures, buf);
    }
    assert tx.inputs[..|tx.inputs|] == tx.inputs;
    ghost var middle := buf;
    buf := buf + ToLe(|tx.outputs|, 8);
    start := buf;
    assert tx.outputs[..0] == [];
    for i := 0 to |tx.outputs|
      invariant buf == start + EncodeAll(EncodeOutput, tx.outputs[..i])
    {
      assert tx.outputs[..i + 1] == tx.outputs[..i] + [tx.outputs[i]];
      EncodeSnoc(EncodeOutput, tx.outputs[..i], tx.outputs[i]);
      buf := buf + ToLe(tx.outputs[i].value, 8);
      buf := buf + ToBe(tx.outputs[i].owner as nat, 32);
      assert buf == start + EncodeAll(EncodeOutput, tx.outputs[..i]) + EncodeOutput(tx.outputs[i]);
    }
    assert tx.outputs[..|tx.outputs|] == tx.outputs;
    buf := buf + ToLe(|tx.tag|, 8);
    buf := buf + tx.tag;
    TxAppended(buf0, tx, withSignatures, middle, buf);
  }

  lemma InputAppended(start: Bytes, f: TxInput -> Bytes, front: seq<TxInput>, i: TxInput, withSignatures: bool,
                      buf: Bytes)
    requires f == EncodeInput(withSignatures)
    requires buf == start + EncodeAll(f, front) + ToBe(i.outpoint.tx as nat, 32) + ToLe(i.outpoint.index, 4)
                    + (if withSignatures then ToBe(i.signature as nat, 64) else [])
    ensures buf == start + (EncodeAll(f, front) + f(i))
  {
    hide ToBe, ToLe, EncodeAll;
    assert f(i) == ToBe(i.outpoint.tx as nat, 32) + ToLe(i.outpoint.index, 4)
                   + (if withSignatures then ToBe(i.signature as nat, 64) else []);
  }

  lemma TxAppended(buf0: Bytes, tx: Transaction, withSignatures: bool, middle: Bytes, buf: Bytes)
    requires middle == buf0 + ToLe(|tx.inputs|, 8) + EncodeAll(EncodeInput(withSignatures), tx.inputs)
    requires buf == middle + ToLe(|tx.outputs|, 8) + EncodeAll(EncodeOutput, tx.outputs) + ToLe(|tx.tag|, 8) + tx.tag
    ensures buf == buf0 + EncodeTxWith(tx, withSignatures)
  {
    hide ToLe, EncodeAll;
  }

  /** Encode a list of transactions as a block payload. */
  method EncodeBlockPayload(txs: seq<Transaction>) returns (buf: Bytes)
    ensures buf == EncodePayload(txs)
  {
    hide ToLe, EncodeTxWith;
    buf := ToLe(|txs|, 8);
    ghost var start := buf;
    assert txs[..0] == [];
    for i := 0 to |txs|
      invariant buf == start + EncodeAll(EncodeTx, txs[..i])
    {
      assert txs[..i + 1] == txs[..i] + [txs[i]];
      EncodeSnoc(EncodeTx, txs[..i], txs[i]);
      buf := EncodeInto(txs[i], buf, true);
      assert start + EncodeAll(EncodeTx, txs[..i]) + EncodeTx(txs[i]) ==
             start + (EncodeAll(EncodeTx, txs[..i]) + EncodeTx(txs[i]));
    }
    assert txs[..|txs|] == txs;
  }

  // ------------------------------------------------------------------
  // The encoding determines the transaction

  lemma MoreWidths()
    ensures Pow256(64) == TWO_256 * TWO_256
  {
    Widths();
    PowAdd(32, 32);
  }

  lemma OutPointSplits(a: OutPoint, b: OutPoint, r: Bytes, r': Bytes)
    requires EncodeOutPoint(a) + r == EncodeOutPoint(b) + r'
    ensures a == b && r == r'
  {
    Widths();
    hide ToBe, ToLe;
    var x, y := ToLe(a.index, 4) + r, ToLe(b.index, 4) + r';
    assert EncodeOutPoint(a) + r == ToBe(a.tx as nat, 32) + x;
    assert EncodeOutPoint(b) + r' == ToBe(b.tx as nat, 32) + y;
    SameBe(a.tx as nat, b.tx as nat, 32, x, y);
    SameLe(a.index, b.index, 4, r, r');
  }

  lemma InputSplits(a: TxInput, b: TxInput, r: Bytes, r': Bytes)
    requires EncodeSigned(a) + r == EncodeSigned(b) + r'
    ensures a == b && r == r'
  {
    MoreWidths();
    hide ToBe, EncodeOutPoint, Pow256;
    var x, y := ToBe(a.signature as nat, 64) + r, ToBe(b.signature as nat, 64) + r';
    assert EncodeSigned(a) + r == EncodeOutPoint(a.outpoint) + x;
    assert EncodeSigned(b) + r' == EncodeOutPoint(b.outpoint) + y;
    OutPointSplits(a.outpoint, b.outpoint, x, y);
    SameBe(a.signature as nat, b.signature as nat, 64, r, r');
  }

  lemma InputWidth(a: TxInput)
    ensures |EncodeSigned(a)| == 100
  {
    Widths();
    MoreWidths();
    hide ToBe, ToLe, Pow256;
    BeRoundTrip(a.outpoint.tx as nat, 32);
    ToLeLength(a.outpoint.index, 4);
    BeRoundTrip(a.signature as nat, 64);
  }

  lemma InputsSplit()
    ensures SelfDelimiting(EncodeSigned, Any) && FixedWidth(EncodeSigned, 100)
  {
    hide EncodeSigned;
    forall a, b, r, r' ensures Splits(EncodeSigned, a, b, r, r') {
      if EncodeSigned(a) + r == EncodeSigned(b) + r' {
        InputSplits(a, b, r, r');
      }
    }
    forall a ensures |EncodeSigned(a)| == 100 {
      InputWidth(a);
    }
  }

  lemma OutputSplits(a: TxOutput, b: TxOutput, r: Bytes, r': Bytes)
    requires EncodeOutput(a) + r == EncodeOutput(b) + r'
    ensures a == b && r == r'
  {
    Widths();
    hide ToBe, ToLe, Pow256;
    var x, y := ToBe(a.owner as nat, 32) + r, ToBe(b.owner as nat, 32) + r';
    assert EncodeOutput(a) + r == ToLe(a.value, 8) + x;
    assert EncodeOutput(b) + r' == ToLe(b.value, 8) + y;
    SameLe(a.value, b.value, 8, x, y);
    SameBe(a.owner as nat, b.owner as nat, 32, r, r');
  }

  lemma OutputWidth(a: TxOutput)
    ensures |EncodeOutput(a)| == 40
  {
    Widths();
    hide ToBe, ToLe, Pow256;
    ToLeLength(a.value, 8);
    BeRoundTrip(a.owner as nat, 32);
  }

  lemma OutputsSplit()
    ensures SelfDelimiting(EncodeOutput, Any) && FixedWidth(EncodeOutput, 40)
  {
    hide EncodeOutput;
    forall a, b, r, r' ensures Splits(EncodeOutput, a, b, r, r') {
      if EncodeOutput(a) + r == EncodeOutput(b) + r' {
        OutputSplits(a, b, r, r');
      }
    }
    forall a ensures |EncodeOutput(a)| == 40 {
      OutputWidth(a);
    }
  }

  lemma TxSplits(a: Transaction, b: Transaction, r: Bytes, r': Bytes)
    requires Encodable(a) && Encodable(b) && EncodeTx(a) + r == EncodeTx(b) + r'
    ensures a == b && r == r'
  {
    InputsSplit();
    OutputsSplit();
    hide EncodeList, EncodeRaw, SelfDelimiting, FixedWidth;
    var tagA, tagB := EncodeRaw(a.tag) + r, EncodeRaw(b.tag) + r';
    var bodyA, bodyB := EncodeList(EncodeOutput, a.outputs) + tagA, EncodeList(EncodeOutput, b.outputs) + tagB;
    assert EncodeTx(a) + r == EncodeList(EncodeSigned, a.inputs) + bodyA;
    assert EncodeTx(b) + r' == EncodeList(EncodeSigned, b.inputs) + bodyB;
    ListSplits(EncodeSigned, Any, a.inputs, b.inputs, bodyA, bodyB);
    ListSplits(EncodeOutput, Any, a.outputs, b.outputs, tagA, tagB);
    RawSplits(a.tag, b.tag, r, r');
  }

  lemma TxsSplit()
    ensures SelfDelimiting(EncodeTx, Encodable)
  {
    forall a, b, r, r' | Encodable(a) && Encodable(b) ensures Splits(EncodeTx, a, b, r, r') {
      if EncodeTx(a) + r == EncodeTx(b) + r' {
        TxSplits(a, b, r, r');
      }
    }
  }
}
