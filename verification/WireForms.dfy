/** Where each field stands in the canonical bytes of blocks and transactions. */
module WireForms {
  import opened Types
  import opened Bytes
  import opened Encodings
  import opened Blocks
  import opened Transactions

  /** The bytes of `part` stand in `e` at this place. */
  ghost predicate StandsAt(e: Bytes, at: nat, part: Bytes) {
    at + |part| <= |e| && e[at..at + |part|] == part
  }

  /** From this place on, `e` is `rest`. */
  ghost predicate EndsWith(e: Bytes, at: nat, rest: Bytes) {
    at <= |e| && e[at..] == rest
  }

  lemma Whole(e: Bytes)
    ensures EndsWith(e, 0, e)
  {
  }

  lemma Peel(e: Bytes, at: nat, part: Bytes, rest: Bytes)
    requires EndsWith(e, at, part + rest)
    ensures StandsAt(e, at, part) && EndsWith(e, at + |part|, rest) && |e| == at + |part| + |rest|
  {
    assert |e[at..]| == |part| + |rest|;
    assert e[at..at + |part|] == e[at..][..|part|];
    assert e[at + |part|..] == e[at..][|part|..];
  }

  lemma Last(e: Bytes, at: nat, part: Bytes)
    requires EndsWith(e, at, part)
    ensures StandsAt(e, at, part) && |e| == at + |part|
  {
  }

  /** A part of what stands there stands there too. */
  lemma Within(e: Bytes, at: nat, part: Bytes, i: nat, inner: Bytes)
    requires StandsAt(e, at, part) && StandsAt(part, i, inner)
    ensures StandsAt(e, at + i, inner)
  {
    forall k | 0 <= k < |inner| ensures e[at + i..at + i + |inner|][k] == inner[k] {
      assert e[at..at + |part|][i + k] == part[i + k] && part[i..i + |inner|][k] == inner[k];
    }
  }

  /** Items of one width stand at multiples of it. */
  lemma {:induction false} ItemsAt<T>(f: T -> Bytes, w: nat, s: seq<T>)
    requires forall x {:trigger f(x)} :: |f(x)| == w
    ensures |EncodeAll(f, s)| == w * |s|
    ensures forall i {:trigger s[i]} :: 0 <= i < |s| ==> 0 <= w * i && StandsAt(EncodeAll(f, s), w * i, f(s[i]))
  {
    if s != [] {
      ItemsAt(f, w, s[1..]);
      assert w * |s| == w + w * (|s| - 1);
      Whole(EncodeAll(f, s));
      Peel(EncodeAll(f, s), 0, f(s[0]), EncodeAll(f, s[1..]));
      Last(EncodeAll(f, s), w, EncodeAll(f, s[1..]));
      hide StandsAt, EncodeAll;
      forall i {:trigger s[i]} | 0 <= i < |s| ensures 0 <= w * i && StandsAt(EncodeAll(f, s), w * i, f(s[i])) {
        if i > 0 {
          assert w * i == w + w * (i - 1) && s[1..][i - 1] == s[i];
          Within(EncodeAll(f, s), w, EncodeAll(f, s[1..]), w * (i - 1), f(s[i]));
        }
      }
    }
  }

  /** A block's bytes: the number of its parents, their ids, its work, time and nonce, and its payload
      behind its length. The digest of these bytes is the block's id. */
  lemma BlockBytes(b: Block)
    ensures Id(b) == Blake3(Encode(b))
    ensures var e, at := Encode(b), 8 + 32 * |b.parents|;
            && |e| == at + 40 + |b.payload|
            && StandsAt(e, 0, ToLe(|b.parents|, 8))
            && (forall i {:trigger b.parents[i]} :: 0 <= i < |b.parents| ==>
                  StandsAt(e, 8 + 32 * i, ToBe(b.parents[i] as nat, 32)))
            && StandsAt(e, at, ToLe(b.work, 16))
            && StandsAt(e, at + 16, ToLe(b.timestamp, 8))
            && StandsAt(e, at + 24, ToLe(b.nonce, 8))
            && StandsAt(e, at + 32, ToLe(|b.payload|, 8))
            && StandsAt(e, at + 40, b.payload)
  {
    hide *;
    var e, ids := Encode(b), EncodeAll(IdBytes, b.parents);
    IdWidths();
    IdIs(b);
    ItemsAt(IdBytes, 32, b.parents);
    BlockSpine(b, e, ids);
    forall i {:trigger b.parents[i]} | 0 <= i < |b.parents|
      ensures StandsAt(e, 8 + 32 * i, ToBe(b.parents[i] as nat, 32))
    {
      IdBytesAre(b.parents[i]);
      Within(e, 8, ids, 32 * i, IdBytes(b.parents[i]));
    }
  }

  lemma BlockSpine(b: Block, e: Bytes, ids: Bytes)
    requires e == ToLe(|b.parents|, 8)
                  + (ids
                     + (ToLe(b.work, 16)
                        + (ToLe(b.timestamp, 8) + (ToLe(b.nonce, 8) + (ToLe(|b.payload|, 8) + b.payload)))))
    ensures var at := 8 + |ids|;
            && |e| == at + 40 + |b.payload|
            && StandsAt(e, 0, ToLe(|b.parents|, 8)) && StandsAt(e, 8, ids)
            && StandsAt(e, at, ToLe(b.work, 16))
            && StandsAt(e, at + 16, ToLe(b.timestamp, 8))
            && StandsAt(e, at + 24, ToLe(b.nonce, 8))
            && StandsAt(e, at + 32, ToLe(|b.payload|, 8))
            && StandsAt(e, at + 40, b.payload)
  {
    hide *;
    var at := 8 + |ids|;
    BlockWidths(b);
    var work, time, nonce := ToLe(b.work, 16), ToLe(b.timestamp, 8), ToLe(b.nonce, 8);
    var afterNonce := ToLe(|b.payload|, 8) + b.payload;
    var afterTime := nonce + afterNonce;
    var afterWork := time + afterTime;
    var afterIds := work + afterWork;
    Whole(e);
    Peel(e, 0, ToLe(|b.parents|, 8), ids + afterIds);
    Peel(e, 8, ids, afterIds);
    Peel(e, at, work, afterWork);
    Peel(e, at + 16, time, afterTime);
    Peel(e, at + 24, nonce, afterNonce);
    Peel(e, at + 32, ToLe(|b.payload|, 8), b.payload);
    Last(e, at + 40, b.payload);
  }

  lemma IdIs(b: Block)
    ensures Id(b) == Blake3(Encode(b))
    ensures Encode(b) ==
            ToLe(|b.parents|, 8)
            + (EncodeAll(IdBytes, b.parents)
               + (ToLe(b.work, 16)
                  + (ToLe(b.timestamp, 8) + (ToLe(b.nonce, 8) + (ToLe(|b.payload|, 8) + b.payload)))))
  {
    hide ToLe, EncodeAll;
  }

  lemma IdBytesAre(id: BlockId)
    ensures IdBytes(id) == ToBe(id as nat, 32)
  {
  }

  lemma BlockWidths(b: Block)
    ensures |ToLe(|b.parents|, 8)| == 8 && |ToLe(b.work, 16)| == 16 && |ToLe(b.timestamp, 8)| == 8
    ensures |ToLe(b.nonce, 8)| == 8 && |ToLe(|b.payload|, 8)| == 8
  {
    hide ToLe;
    ToLeLength(|b.parents|, 8);
    ToLeLength(b.work, 16);
    ToLeLength(b.timestamp, 8);
    ToLeLength(b.nonce, 8);
    ToLeLength(|b.payload|, 8);
  }

  lemma IdWidths()
    ensures forall x {:trigger IdBytes(x)} :: |IdBytes(x)| == 32
  {
    Widths();
    hide ToLe, ToBe;
    forall x: BlockId ensures |IdBytes(x)| == 32 {
      BeRoundTrip(x as nat, 32);
    }
  }

  /** A transaction's bytes: its inputs, each the outpoint and, in the signed form, the signature;
      its outputs, each value and owner; and its tag; every list behind its length. The digest of the
      signed bytes is the transaction's id, that of the unsigned ones what its inputs sign. */
  lemma TransactionBytes(tx: Transaction, signed: bool)
    ensures signed ==> TxIdOf(tx) as nat == Blake3(EncodeTxWith(tx, signed)) as nat
    ensures !signed ==> SigHash(tx) == Blake3(EncodeTxWith(tx, signed))
    ensures var e, w := EncodeTxWith(tx, signed), if signed then 100 else 36;
            var outs := 8 + w * |tx.inputs|;
            var tag := outs + 8 + 40 * |tx.outputs|;
            && |e| == tag + 8 + |tx.tag| && StandsAt(e, 0, ToLe(|tx.inputs|, 8))
            && (forall i {:trigger tx.inputs[i]} :: 0 <= i < |tx.inputs| ==>
                  && 0 <= w * i && StandsAt(e, 8 + w * i, ToBe(tx.inputs[i].outpoint.tx as nat, 32))
                  && StandsAt(e, 40 + w * i, ToLe(tx.inputs[i].outpoint.index, 4))
                  && (signed ==> StandsAt(e, 44 + w * i, ToBe(tx.inputs[i].signature as nat, 64))))
            && StandsAt(e, outs, ToLe(|tx.outputs|, 8))
            && (forall i {:trigger tx.outputs[i]} :: 0 <= i < |tx.outputs| ==>
                  && StandsAt(e, outs + 8 + 40 * i, ToLe(tx.outputs[i].value, 8))
                  && StandsAt(e, outs + 16 + 40 * i, ToBe(tx.outputs[i].owner as nat, 32)))
            && StandsAt(e, tag, ToLe(|tx.tag|, 8)) && StandsAt(e, tag + 8, tx.tag)
  {
    hide *;
    var e, w := EncodeTxWith(tx, signed), if signed then 100 else 36;
    var f := EncodeInput(signed);
    var ins, made := EncodeAll(f, tx.inputs), EncodeAll(EncodeOutput, tx.outputs);
    TransactionWidths(signed);
    TransactionParts(tx, signed);
    DigestsOf(tx);
    ItemsAt(f, w, tx.inputs);
    ItemsAt(EncodeOutput, 40, tx.outputs);
    var outs := 8 + |ins|;
    TransactionSpine(tx, e, ins, made);
    forall i {:trigger tx.inputs[i]} | 0 <= i < |tx.inputs|
      ensures && 0 <= w * i && StandsAt(e, 8 + w * i, ToBe(tx.inputs[i].outpoint.tx as nat, 32))
              && StandsAt(e, 40 + w * i, ToLe(tx.inputs[i].outpoint.index, 4))
              && (signed ==> StandsAt(e, 44 + w * i, ToBe(tx.inputs[i].signature as nat, 64)))
    {
      Within(e, 8, ins, w * i, f(tx.inputs[i]));
      InputAt(e, 8 + w * i, tx.inputs[i], signed);
    }
    forall i {:trigger tx.outputs[i]} | 0 <= i < |tx.outputs|
      ensures && StandsAt(e, outs + 8 + 40 * i, ToLe(tx.outputs[i].value, 8))
              && StandsAt(e, outs + 16 + 40 * i, ToBe(tx.outputs[i].owner as nat, 32))
    {
      Within(e, outs + 8, made, 40 * i, EncodeOutput(tx.outputs[i]));
      OutputAt(e, outs + 8 + 40 * i, tx.outputs[i]);
    }
  }

  lemma TransactionSpine(tx: Transaction, e: Bytes, ins: Bytes, made: Bytes)
    requires e == ToLe(|tx.inputs|, 8) + (ins + (ToLe(|tx.outputs|, 8) + (made + (ToLe(|tx.tag|, 8) + tx.tag))))
    ensures var outs := 8 + |ins|;
            var tag := outs + 8 + |made|;
            && |e| == tag + 8 + |tx.tag| && StandsAt(e, 0, ToLe(|tx.inputs|, 8)) && StandsAt(e, 8, ins)
            && StandsAt(e, outs, ToLe(|tx.outputs|, 8)) && StandsAt(e, outs + 8, made)
            && StandsAt(e, tag, ToLe(|tx.tag|, 8)) && StandsAt(e, tag + 8, tx.tag)
  {
    hide *;
    var outs := 8 + |ins|;
    CountWidths(tx);
    var afterMade := ToLe(|tx.tag|, 8) + tx.tag;
    var afterCount := made + afterMade;
    var afterIns := ToLe(|tx.outputs|, 8) + afterCount;
    Whole(e);
    Peel(e, 0, ToLe(|tx.inputs|, 8), ins + afterIns);
    Peel(e, 8, ins, afterIns);
    Peel(e, outs, ToLe(|tx.outputs|, 8), afterCount);
    Peel(e, outs + 8, made, afterMade);
    Peel(e, outs + 8 + |made|, ToLe(|tx.tag|, 8), tx.tag);
    Last(e, outs + 16 + |made|, tx.tag);
  }

  lemma DigestsOf(tx: Transaction)
    ensures TxIdOf(tx) as nat == Blake3(EncodeTxWith(tx, true)) as nat
    ensures SigHash(tx) == Blake3(EncodeTxWith(tx, false))
  {
    hide EncodeTxWith;
  }

  lemma CountWidths(tx: Transaction)
    ensures |ToLe(|tx.inputs|, 8)| == 8 && |ToLe(|tx.outputs|, 8)| == 8 && |ToLe(|tx.tag|, 8)| == 8
  {
    hide ToLe;
    ToLeLength(|tx.inputs|, 8);
    ToLeLength(|tx.outputs|, 8);
    ToLeLength(|tx.tag|, 8);
  }

  lemma InputAt(e: Bytes, at: nat, input: TxInput, signed: bool)
    requires StandsAt(e, at, EncodeInput(signed)(input))
    ensures StandsAt(e, at, ToBe(input.outpoint.tx as nat, 32))
    ensures StandsAt(e, at + 32, ToLe(input.outpoint.index, 4))
    ensures signed ==> StandsAt(e, at + 36, ToBe(input.signature as nat, 64))
  {
    hide *;
    var one := EncodeInput(signed)(input);
    InputBytes(input, signed);
    Within(e, at, one, 0, ToBe(input.outpoint.tx as nat, 32));
    Within(e, at, one, 32, ToLe(input.outpoint.index, 4));
    if signed {
      Within(e, at, one, 36, ToBe(input.signature as nat, 64));
    }
  }

  lemma OutputAt(e: Bytes, at: nat, o: TxOutput)
    requires StandsAt(e, at, EncodeOutput(o))
    ensures StandsAt(e, at, ToLe(o.value, 8)) && StandsAt(e, at + 8, ToBe(o.owner as nat, 32))
  {
    hide *;
    OutputBytes(o);
    Within(e, at, EncodeOutput(o), 0, ToLe(o.value, 8));
    Within(e, at, EncodeOutput(o), 8, ToBe(o.owner as nat, 32));
  }

  lemma TransactionParts(tx: Transaction, signed: bool)
    ensures EncodeTxWith(tx, signed) ==
            ToLe(|tx.inputs|, 8)
            + (EncodeAll(EncodeInput(signed), tx.inputs)
               + (ToLe(|tx.outputs|, 8) + (EncodeAll(EncodeOutput, tx.outputs) + (ToLe(|tx.tag|, 8) + tx.tag))))
  {
    hide ToLe, EncodeAll;
  }

  lemma InputBytes(i: TxInput, signed: bool)
    ensures var e := EncodeInput(signed)(i);
            && |e| == (if signed then 100 else 36)
            && StandsAt(e, 0, ToBe(i.outpoint.tx as nat, 32)) && StandsAt(e, 32, ToLe(i.outpoint.index, 4))
            && (signed ==> StandsAt(e, 36, ToBe(i.signature as nat, 64)))
  {
    Widths();
    MoreWidths();
    hide ToLe, ToBe, Pow256;
    BeRoundTrip(i.outpoint.tx as nat, 32);
    ToLeLength(i.outpoint.index, 4);
    BeRoundTrip(i.signature as nat, 64);
  }

  lemma OutputBytes(o: TxOutput)
    ensures var e := EncodeOutput(o);
            && |e| == 40 && StandsAt(e, 0, ToLe(o.value, 8)) && StandsAt(e, 8, ToBe(o.owner as nat, 32))
  {
    Widths();
    hide ToLe, ToBe, Pow256;
    ToLeLength(o.value, 8);
    BeRoundTrip(o.owner as nat, 32);
  }

  lemma TransactionWidths(signed: bool)
    ensures forall i {:trigger EncodeInput(signed)(i)} :: |EncodeInput(signed)(i)| == if signed then 100 else 36
    ensures forall o {:trigger EncodeOutput(o)} :: |EncodeOutput(o)| == 40
  {
    hide *;
    forall i ensures |EncodeInput(signed)(i)| == if signed then 100 else 36 {
      InputBytes(i, signed);
    }
    forall o ensures |EncodeOutput(o)| == 40 {
      OutputBytes(o);
    }
  }

  // ------------------------------------------------------------------
  // What a signature covers

  /** The digest signed does not depend on any signature. */
  lemma SigHashIgnoresSignatures(a: Transaction, b: Transaction)
    requires |a.inputs| == |b.inputs| && a.outputs == b.outputs && a.tag == b.tag
    requires forall i :: 0 <= i < |a.inputs| ==> a.inputs[i].outpoint == b.inputs[i].outpoint
    ensures SigHash(a) == SigHash(b)
  {
    hide EncodeOutPoint, EncodeOutput, EncodeRaw;
    SameUnsigned(a.inputs, b.inputs);
  }

  lemma {:induction false} SameUnsigned(s: seq<TxInput>, t: seq<TxInput>)
    requires |s| == |t| && forall i :: 0 <= i < |s| ==> s[i].outpoint == t[i].outpoint
    ensures EncodeAll(EncodeUnsigned, s) == EncodeAll(EncodeUnsigned, t)
  {
    if s != [] {
      SameUnsigned(s[1..], t[1..]);
    }
  }

  /** It covers everything else: the bytes signed are those of no other outpoints, outputs or tag. */
  lemma SigningBytesCover(a: Transaction, b: Transaction)
    requires Encodable(a) && Encodable(b) && EncodeTxWith(a, false) == EncodeTxWith(b, false)
    ensures |a.inputs| == |b.inputs| && a.outputs == b.outputs && a.tag == b.tag
    ensures forall i :: 0 <= i < |a.inputs| ==> a.inputs[i].outpoint == b.inputs[i].outpoint
  {
    var e := EncodeTxWith(a, false);
    TransactionBytes(a, false);
    TransactionBytes(b, false);
    hide ToLe, ToBe, EncodeTxWith, StandsAt;
    SameSmall(e, 0, |a.inputs|, |b.inputs|, 8);
    var outs := 8 + 36 * |a.inputs|;
    SameSmall(e, outs, |a.outputs|, |b.outputs|, 8);
    forall i | 0 <= i < |a.inputs| ensures a.inputs[i].outpoint == b.inputs[i].outpoint {
      SameBig(e, 8 + 36 * i, a.inputs[i].outpoint.tx as nat, b.inputs[i].outpoint.tx as nat);
      SameSmall(e, 40 + 36 * i, a.inputs[i].outpoint.index, b.inputs[i].outpoint.index, 4);
    }
    forall i | 0 <= i < |a.outputs| ensures a.outputs[i] == b.outputs[i] {
      SameSmall(e, outs + 8 + 40 * i, a.outputs[i].value, b.outputs[i].value, 8);
      SameBig(e, outs + 16 + 40 * i, a.outputs[i].owner as nat, b.outputs[i].owner as nat);
    }
    SamePart(e, outs + 16 + 40 * |a.outputs|, a.tag, b.tag);
  }

  lemma SamePart(e: Bytes, at: nat, p: Bytes, q: Bytes)
    requires StandsAt(e, at, p) && StandsAt(e, at, q) && |p| == |q|
    ensures p == q
  {
  }

  lemma SameSmall(e: Bytes, at: nat, m: nat, n: nat, w: nat)
    requires w == 4 || w == 8
    requires m < (if w == 4 then TWO_32 else TWO_64) && n < if w == 4 then TWO_32 else TWO_64
    requires StandsAt(e, at, ToLe(m, w)) && StandsAt(e, at, ToLe(n, w))
    ensures m == n
  {
    Widths();
    hide ToLe, FromLe, Pow256, StandsAt;
    ToLeLength(m, w);
    ToLeLength(n, w);
    SamePart(e, at, ToLe(m, w), ToLe(n, w));
    FromToLe(m, w);
    FromToLe(n, w);
  }

  lemma SameBig(e: Bytes, at: nat, m: nat, n: nat)
    requires m < TWO_256 && n < TWO_256 && StandsAt(e, at, ToBe(m, 32)) && StandsAt(e, at, ToBe(n, 32))
    ensures m == n
  {
    Widths();
    hide ToBe, FromBe, Pow256, StandsAt;
    BeRoundTrip(m, 32);
    BeRoundTrip(n, 32);
    SamePart(e, at, ToBe(m, 32), ToBe(n, 32));
  }
}
