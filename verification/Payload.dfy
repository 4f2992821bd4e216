/** Decoding block payloads. */
module Payload {
  import opened Types
  import opened Bytes
  import opened Encodings
  import opened Transactions

  /** The transactions a payload carries. */
  ghost function TxsOf(payload: Bytes): Result<seq<Transaction>, DecodeError> {
    Decoded(EncodeTx, Encodable, payload)
  }

  /** Decoding a payload inverts encoding it. */
  lemma PayloadRoundTrip(txs: seq<Transaction>)
    requires AllEncodable(txs)
    ensures TxsOf(EncodePayload(txs)) == Ok(txs)
  {
    TxsSplit();
    DecodeEncode(EncodeTx, Encodable, txs, []);
    assert EncodePayload(txs) + [] == EncodePayload(txs);
  }

  /** Bytes accepted as a payload re-encode to themselves. */
  lemma PayloadCanonical(payload: Bytes)
    ensures TxsOf(payload).Ok? ==> AllEncodable(TxsOf(payload).value) && EncodePayload(TxsOf(payload).value) == payload
  {
    EncodeDecode(EncodeTx, Encodable, payload);
  }

  method ReadInput(reader: Reader) returns (r: Option<TxInput>)
    requires reader.Valid()
    modifies reader
    ensures reader.Valid() && ReadsItem(EncodeSigned, Any, old(reader.Rest()), r, reader.Rest())
  {
    hide *;
    ghost var start := reader.Rest();
    var tx := reader.ReadBe(32);
    if tx.None? {
      NoInput(start, reader.Rest());
      return None;
    }
    var index := reader.ReadLe(4);
    if index.None? {
      NoInput(start, reader.Rest());
      return None;
    }
    var signature := reader.ReadBe(64);
    if signature.None? {
      NoInput(start, reader.Rest());
      return None;
    }
    InputWidths();
    InputIs(start, tx.value as TxId, index.value, signature.value as Sig, reader.Rest());
    r := Some(TxInput(OutPoint(tx.value as TxId, index.value), signature.value as Sig));
  }

  lemma InputWidths()
    ensures Pow256(4) == TWO_32 && Pow256(32) == TWO_256 && Pow256(64) == TWO_256 * TWO_256
  {
    Widths();
    MoreWidths();
  }

  /** An input takes a hundred bytes. */
  lemma NoInput(start: Bytes, rest: Bytes)
    requires |start| < 100
    ensures ReadsItem(EncodeSigned, Any, start, None, rest)
  {
    InputsSplit();
    hide EncodeSigned, SelfDelimiting;
    forall i, tail | start == EncodeSigned(i) + tail ensures false {
      assert |EncodeSigned(i)| == 100;
    }
  }

  lemma InputIs(start: Bytes, tx: TxId, index: u32, signature: Sig, rest: Bytes)
    requires start == ToBe(tx as nat, 32) + (ToLe(index, 4) + (ToBe(signature as nat, 64) + rest))
    ensures ReadsItem(EncodeSigned, Any, start, Some(TxInput(OutPoint(tx, index), signature)), rest)
  {
    hide ToBe, ToLe;
    var i := TxInput(OutPoint(tx, index), signature);
    assert EncodeSigned(i) + rest == start;
  }

  method ReadOutput(reader: Reader) returns (r: Option<TxOutput>)
    requires reader.Valid()
    modifies reader
    ensures reader.Valid() && ReadsItem(EncodeOutput, Any, old(reader.Rest()), r, reader.Rest())
  {
    ghost var start := reader.Rest();
    OutputsSplit();
    Widths();
    hide ToLe, ToBe, Pow256, SelfDelimiting;
    var value := reader.ReadLe(8);
    if value.None? {
      return None;
    }
    var owner := reader.ReadBe(32);
    if owner.None? {
      return None;
    }
    r := Some(TxOutput(value.value, owner.value as Address));
  }

  method ReadInputs(reader: Reader) returns (r: Option<seq<TxInput>>)
    requires reader.Valid()
    modifies reader
    ensures reader.Valid() && ReadsList(EncodeSigned, Any, old(reader.Rest()), r, reader.Rest())
  {
    InputsSplit();
    hide SelfDelimiting, ReadsItem, ReadsList, EncodeAll, EncodeSigned, ToLe;
    ghost var start := reader.Rest();
    var count := reader.ReadCount(100);
    if count.None? {
      CountRefusesList(EncodeSigned, Any, 100, start, reader.Rest());
      return None;
    }
    var n := count.value;
    var inputs: seq<TxInput> := [];
    NothingYet(EncodeSigned, start, n, reader.Rest());
    while |inputs| < n
      invariant reader.Valid() && |inputs| <= n
      invariant start == ToLe(n, 8) + (EncodeAll(EncodeSigned, inputs) + reader.Rest())
    {
      ghost var rest := reader.Rest();
      var input := ReadInput(reader);
      if input.None? {
        ItemRefusesList(EncodeSigned, Any, start, n, inputs, rest, reader.Rest());
        return None;
      }
      ItemGiven(EncodeSigned, Any, rest, input, reader.Rest());
      ItemExtends(EncodeSigned, start, n, inputs, rest, input.value, reader.Rest());
      inputs := inputs + [input.value];
    }
    ListRead(EncodeSigned, Any, start, n, inputs, reader.Rest());
    r := Some(inputs);
  }

  method ReadOutputs(reader: Reader) returns (r: Option<seq<TxOutput>>)
    requires reader.Valid()
    modifies reader
    ensures reader.Valid() && ReadsList(EncodeOutput, Any, old(reader.Rest()), r, reader.Rest())
  {
    OutputsSplit();
    hide SelfDelimiting, ReadsItem, ReadsList, EncodeAll, EncodeOutput, ToLe;
    ghost var start := reader.Rest();
    var count := reader.ReadCount(40);
    if count.None? {
      CountRefusesList(EncodeOutput, Any, 40, start, reader.Rest());
      return None;
    }
    var n := count.value;
    var outputs: seq<TxOutput> := [];
    NothingYet(EncodeOutput, start, n, reader.Rest());
    while |outputs| < n
      invariant reader.Valid() && |outputs| <= n
      invariant start == ToLe(n, 8) + (EncodeAll(EncodeOutput, outputs) + reader.Rest())
    {
      ghost var rest := reader.Rest();
      var output := ReadOutput(reader);
      if output.None? {
        ItemRefusesList(EncodeOutput, Any, start, n, outputs, rest, reader.Rest());
        return None;
      }
      ItemGiven(EncodeOutput, Any, rest, output, reader.Rest());
      ItemExtends(EncodeOutput, start, n, outputs, rest, output.value, reader.Rest());
      outputs := outputs + [output.value];
    }
    ListRead(EncodeOutput, Any, start, n, outputs, reader.Rest());
    r := Some(outputs);
  }

  /** Read one transaction. */
  method ReadTransaction(reader: Reader) returns (r: Option<Transaction>)
    requires reader.Valid()
    modifies reader
    ensures reader.Valid() && ReadsItem(EncodeTx, Encodable, old(reader.Rest()), r, reader.Rest())
  {
    hide EncodeList, EncodeRaw, EncodeSigned, EncodeOutput;
    InputsSplit();
    OutputsSplit();
    hide SelfDelimiting, FixedWidth;
    ghost var start := reader.Rest();
    var inputs := ReadInputs(reader);
    if inputs.None? {
      forall t, tail | Encodable(t) ensures start != EncodeTx(t) + tail {
        TxParts(t, tail);
      }
      return None;
    }
    ghost var afterInputs := reader.Rest();
    var outputs := ReadOutputs(reader);
    if outputs.None? {
      forall t, tail | Encodable(t) ensures start != EncodeTx(t) + tail {
        TxParts(t, tail);
        OnlyInputs(inputs.value, t, start, afterInputs, tail);
      }
      return None;
    }
    ghost var afterOutputs := reader.Rest();
    var tag := ReadRaw(reader);
    if tag.None? {
      forall t, tail | Encodable(t) ensures start != EncodeTx(t) + tail {
        TxParts(t, tail);
        OnlyInputs(inputs.value, t, start, afterInputs, tail);
        OnlyOutputs(outputs.value, t, afterInputs, afterOutputs, tail);
      }
      return None;
    }
    r := Some(Transaction(inputs.value, outputs.value, tag.value));
    TxParts(r.value, reader.Rest());
  }

  lemma TxParts(t: Transaction, tail: Bytes)
    ensures EncodeTx(t) + tail ==
            EncodeList(EncodeSigned, t.inputs) + (EncodeList(EncodeOutput, t.outputs) + (EncodeRaw(t.tag) + tail))
  {
    hide EncodeList, EncodeRaw;
  }

  lemma OnlyInputs(inputs: seq<TxInput>, t: Transaction, start: Bytes, rest: Bytes, tail: Bytes)
    requires SelfDelimiting(EncodeSigned, Any) && |inputs| < TWO_64 && Encodable(t)
    requires start == EncodeList(EncodeSigned, inputs) + rest
    ensures start == EncodeTx(t) + tail ==> rest == EncodeList(EncodeOutput, t.outputs) + (EncodeRaw(t.tag) + tail)
  {
    hide EncodeList, EncodeRaw, EncodeTx;
    TxParts(t, tail);
    if start == EncodeTx(t) + tail {
      ListSplits(EncodeSigned, Any, inputs, t.inputs, rest,
                 EncodeList(EncodeOutput, t.outputs) + (EncodeRaw(t.tag) + tail));
    }
  }

  lemma OnlyOutputs(outputs: seq<TxOutput>, t: Transaction, start: Bytes, rest: Bytes, tail: Bytes)
    requires SelfDelimiting(EncodeOutput, Any) && |outputs| < TWO_64 && Encodable(t)
    requires start == EncodeList(EncodeOutput, outputs) + rest
    ensures start == EncodeList(EncodeOutput, t.outputs) + (EncodeRaw(t.tag) + tail) ==> rest == EncodeRaw(t.tag) + tail
  {
    hide EncodeList, EncodeRaw;
    if start == EncodeList(EncodeOutput, t.outputs) + (EncodeRaw(t.tag) + tail) {
      ListSplits(EncodeOutput, Any, outputs, t.outputs, rest, EncodeRaw(t.tag) + tail);
    }
  }

  /** A transaction takes at least three empty length prefixes. */
  lemma TxMinimum(t: Transaction)
    ensures |EncodeTx(t)| >= 24
  {
    ToLeLength(|t.inputs|, 8);
    ToLeLength(|t.outputs|, 8);
    ToLeLength(|t.tag|, 8);
  }

  method ReadTransactions(reader: Reader) returns (r: Option<seq<Transaction>>)
    requires reader.Valid()
    modifies reader
    ensures reader.Valid() && ReadsList(EncodeTx, Encodable, old(reader.Rest()), r, reader.Rest())
  {
    TxsSplit();
    hide SelfDelimiting, ReadsItem, ReadsList, EncodeAll, EncodeTx, ToLe, Encodable;
    ghost var start := reader.Rest();
    var count := reader.ReadCount(24);
    if count.None? {
      forall t ensures |EncodeTx(t)| >= 24 {
        TxMinimum(t);
      }
      CountRefusesList(EncodeTx, Encodable, 24, start, reader.Rest());
      return None;
    }
    var n := count.value;
    var txs: seq<Transaction> := [];
    NothingYet(EncodeTx, start, n, reader.Rest());
    while |txs| < n
      invariant reader.Valid() && |txs| <= n && forall tx :: tx in txs ==> Encodable(tx)
      invariant start == ToLe(n, 8) + (EncodeAll(EncodeTx, txs) + reader.Rest())
    {
      ghost var rest := reader.Rest();
      var tx := ReadTransaction(reader);
      if tx.None? {
        ItemRefusesList(EncodeTx, Encodable, start, n, txs, rest, reader.Rest());
        return None;
      }
      ItemGiven(EncodeTx, Encodable, rest, tx, reader.Rest());
      ItemExtends(EncodeTx, start, n, txs, rest, tx.value, reader.Rest());
      txs := txs + [tx.value];
    }
    ListRead(EncodeTx, Encodable, start, n, txs, reader.Rest());
    r := Some(txs);
  }

  /** Decode a block payload. */
  method DecodeBlockPayload(bytes: Bytes) returns (r: Result<seq<Transaction>, DecodeError>)
    ensures r == TxsOf(bytes)
  {
    TxsSplit();
    hide SelfDelimiting, ReadsList, Decoded;
    var reader := new Reader(bytes);
    var txs := ReadTransactions(reader);
    DecodedByReading(EncodeTx, Encodable, bytes, txs, reader.Rest());
    if txs.None? {
      return Err(UnexpectedEof);
    }
    if reader.Remaining() != 0 {
      return Err(TrailingBytes);
    }
    r := Ok(txs.value);
  }
}
