/** Hash-target proof of work: a 256 by 128 bit multiplication in 64-bit limbs. */
module Pow {
  import opened Types
  import opened Arithmetic
  import opened Bytes
  import opened Blocks

  const B: nat := TWO_64

  ghost function Exp(n: nat): nat {
    if n == 0 then 1 else B * Exp(n - 1)
  }

  /** The number a little-endian limb list stands for. */
  ghost function Val(s: seq<int>): int {
    if s == [] then 0 else s[0] + B * Val(s[1..])
  }

  ghost predicate Limbs(s: seq<int>) {
    forall i :: 0 <= i < |s| ==> 0 <= s[i] < B
  }
  lemma {:induction false} ValBound(s: seq<int>)
    requires Limbs(s)
    ensures 0 <= Val(s) < Exp(|s|)
  {
    if s != [] {
      assert Limbs(s[1..]);
      ValBound(s[1..]);
    }
  }

  lemma {:induction false} ValUpdate(s: seq<int>, i: nat, x: int)
    requires i < |s|
    ensures Val(s[i := x]) == Val(s) + Exp(i) * (x - s[i])
  {
    if i == 0 {
      assert s[0 := x][1..] == s[1..];
    } else {
      assert s[i := x][1..] == s[1..][i - 1 := x];
      ValUpdate(s[1..], i - 1, x);
      var e, d := Exp(i - 1), x - s[i];
      Distribute(B, Val(s[1..]), e, d);
    }
  }

  lemma {:induction false} ValSplit(s: seq<int>, i: nat)
    requires i <= |s|
    ensures Val(s) == Val(s[..i]) + Exp(i) * Val(s[i..])
  {
    if i == 0 {
      assert s[0..] == s;
    } else {
      ValSplit(s[1..], i - 1);
      assert s[..i][1..] == s[1..][..i - 1] && s[1..][i - 1..] == s[i..];
      var v := Val(s[i..]);
      Distribute(B, Val(s[..i][1..]), Exp(i - 1), v);
    }
  }

  // ------------------------------------------------------------------

  /** One multiply-add never overflows 128 bits. */
  lemma StepFits(h: nat, w: nat, p: nat, c: nat)
    requires h < B && w < B && p < B && c < B
    ensures h * w + p + c < TWO_128
    ensures 0 <= (h * w + p + c) / B < B
  {
    var x := h * w + p + c;
    MulLe(h, B - 1, w);
    MulLe(w, B - 1, B - 1);
    assert x < B * B;
    DivBounds(x, B);
  }

  lemma ExpAdd(m: nat, n: nat)
    ensures Exp(m + n) == Exp(m) * Exp(n)
  {
    if m > 0 {
      ExpAdd(m - 1, n);
    }
  }

  /** `x` moved up by `n` limbs. */
  ghost function Shift(n: nat, x: int): int {
    Exp(n) * x
  }

  /** One cell of the schoolbook method: the cell keeps the low limb, the carry the high
      one, and together they account for exactly what was added. */
  lemma CellStep(s: seq<int>, idx: nat, x: int, carry: int, m: int)
    requires Limbs(s) && idx < |s| && m == x + s[idx] + carry && m >= 0
    ensures Limbs(s[idx := m % B])
    ensures Val(s[idx := m % B]) + Shift(idx + 1, m / B) == Val(s) + Shift(idx, carry) + Shift(idx, x)
  {
    ValUpdate(s, idx, m % B);
    DivBounds(m, B);
    var e, p, lo, hi := Exp(idx), s[idx], m % B, m / B;
    assert e * (lo - p) + (B * e) * hi == e * (lo - p + B * hi);
    assert e * (m - p) == e * (x + carry);
    assert e * (x + carry) == e * x + e * carry;
  }

  lemma RowGrows(w: seq<int>, j: nat, i: nat, hi: int)
    requires j < |w|
    ensures Shift(i, hi * Val(w[..j + 1])) == Shift(i, hi * Val(w[..j])) + Shift(i + j, hi * w[j])
  {
    ValSplit(w[..j + 1], j);
    assert w[..j + 1][..j] == w[..j] && w[..j + 1][j..] == [w[j]];
    assert Val([w[j]]) == w[j] + B * Val([w[j]][1..]);
    ExpAdd(i, j);
    DistributeRow(Exp(i), Exp(j), hi, Val(w[..j]), w[j]);
  }

  lemma DistributeRow(a: int, b: int, h: int, v: int, x: int)
    ensures a * (h * (v + b * x)) == a * (h * v) + (a * b) * (h * x)
  {
    assert h * (v + b * x) == h * v + b * (h * x);
    assert a * (h * v + b * (h * x)) == a * (h * v) + a * (b * (h * x));
  }

  /** The carry that would leave the sixth limb is zero, because the product fits. */
  lemma NoCarryLost(s: seq<int>, carry: int, idx: nat, total: int)
    requires |s| == 6 && Limbs(s) && 0 <= carry && idx <= 6
    requires carry == 0 || idx == 6
    requires Val(s) + Shift(idx, carry) == total < Exp(6)
    ensures carry == 0 && Val(s) == total
  {
    ValBound(s);
    MulLe(1, if carry > 0 then carry else 1, Exp(6));
  }

  lemma NothingYet(i: nat, hi: int)
    ensures Shift(i, 0) == 0 && Shift(i, hi * Val([])) == 0
  {
  }

  /** Multiply one limb of the hash into the product: a row of the schoolbook method. */
  method MultiplyRow(prod: array<int>, hi: int, w: seq<int>, i: nat)
    requires prod.Length == 6 && Limbs(prod[..]) && i < 4
    requires 0 <= hi < B && |w| == 2 && Limbs(w)
    requires Val(prod[..]) + Shift(i, hi * Val(w)) < Exp(6)
    modifies prod
    ensures Limbs(prod[..])
    ensures Val(prod[..]) == old(Val(prod[..])) + Shift(i, hi * Val(w))
  {
    hide Val, Shift, Exp;
    ghost var start := Val(prod[..]);
    var carry: int := 0;
    assert w[..0] == [];
    NothingYet(i, hi);
    for j := 0 to 2
      invariant Limbs(prod[..]) && 0 <= carry < B
      invariant Val(prod[..]) + Shift(i + j, carry) == start + Shift(i, hi * Val(w[..j]))
    {
      var idx := i + j;
      StepFits(hi, w[j], prod[idx], carry);
      var m := hi * w[j] + prod[idx] + carry;
      CellStep(prod[..], idx, hi * w[j], carry, m);
      RowGrows(w, j, i, hi);
      assert prod[..][idx := m % B] == prod[..idx] + [m % B] + prod[idx + 1..];
      prod[idx] := m % B;
      carry := m / B;
    }
    assert w[..2] == w;
    PropagateCarry(prod, carry, i + 2, start + Shift(i, hi * Val(w)));
  }

  /** Push the row's last carry into the higher limbs. */
  method PropagateCarry(prod: array<int>, carry0: int, from: nat, ghost total: int)
    requires prod.Length == 6 && Limbs(prod[..]) && 0 <= carry0 < B && from <= 6
    requires Val(prod[..]) + Shift(from, carry0) == total < Exp(6)
    modifies prod
    ensures Limbs(prod[..]) && Val(prod[..]) == total
  {
    hide Val, Shift, Exp;
    var carry, idx := carry0, from;
    while carry != 0 && idx < 6
      invariant idx <= 6 && Limbs(prod[..]) && 0 <= carry < B
      invariant Val(prod[..]) + Shift(idx, carry) == total
      decreases 6 - idx
    {
      StepFits(0, 0, prod[idx], carry);
      var sum := prod[idx] + carry;
      CellStep(prod[..], idx, 0, carry, sum);
      NothingYet(idx, 0);
      assert prod[..][idx := sum % B] == prod[..idx] + [sum % B] + prod[idx + 1..];
      prod[idx] := sum % B;
      carry := sum / B;
      idx := idx + 1;
    }
    NoCarryLost(prod[..], carry, idx, total);
  }

  // ------------------------------------------------------------------

  /** The acceptance rule: the hash, as a 256-bit number, times the work is below 2^256. */
  predicate MeetsTarget(id: BlockId, work: u128) {
    id as nat * Max(work, 1) < TWO_256
  }

  lemma {:induction false} FromLeConcat(a: Bytes, b: Bytes)
    ensures FromLe(a + b) == FromLe(a) + Pow256(|a|) * FromLe(b)
  {
    if a == [] {
      assert a + b == b;
    } else {
      assert (a + b)[1..] == a[1..] + b;
      FromLeConcat(a[1..], b);
      var p, v := Pow256(|a| - 1), FromLe(b);
      Distribute(256, FromLe(a[1..]), p, v);
    }
  }

  lemma {:induction false} ReverseConcat(a: Bytes, b: Bytes)
    ensures Reverse(a + b) == Reverse(b) + Reverse(a)
  {
    if a == [] {
      assert a + b == b;
      assert Reverse(b) + [] == Reverse(b);
    } else {
      assert (a + b)[1..] == a[1..] + b;
      ReverseConcat(a[1..], b);
      assert Reverse(b) + Reverse(a[1..]) + [a[0]] == Reverse(b) + (Reverse(a[1..]) + [a[0]]);
    }
  }

  lemma FromBeConcat(a: Bytes, b: Bytes)
    ensures FromBe(a + b) == FromBe(b) + Pow256(|b|) * FromBe(a)
  {
    ReverseConcat(a, b);
    ReverseTwice(b);
    FromLeConcat(Reverse(b), Reverse(a));
  }

  /** The four limbs of a digest, least significant first. */
  function HashLimbs(bytes: Bytes): (h: seq<int>)
    requires |bytes| == 32
    ensures |h| == 4
  {
    [FromBe(bytes[24..32]), FromBe(bytes[16..24]), FromBe(bytes[8..16]), FromBe(bytes[0..8])]
  }

  lemma ValFour(a: int, b: int, c: int, d: int)
    ensures Val([a, b, c, d]) == a + B * (b + B * (c + B * d))
  {
    assert [a, b, c, d][1..] == [b, c, d];
    assert [b, c, d][1..] == [c, d];
    assert [c, d][1..] == [d];
    assert Val([d]) == d + B * Val([d][1..]);
    assert Val([c, d]) == c + B * Val([d]);
    assert Val([b, c, d]) == b + B * Val([c, d]);
  }

  lemma EightBytes(front: Bytes, back: Bytes)
    requires |back| == 8
    ensures FromBe(front + back) == FromBe(back) + B * FromBe(front)
    ensures 0 <= FromBe(back) < B
  {
    Widths();
    FromBeConcat(front, back);
    BytesRoundTripBe(back);
  }

  /** The four limbs read from the digest spell the identifier. */
  lemma LimbsOfId(bytes: Bytes)
    requires |bytes| == 32
    ensures Limbs(HashLimbs(bytes)) && Val(HashLimbs(bytes)) == FromBe(bytes)
  {
    var b0, b1, b2, b3 := bytes[0..8], bytes[8..16], bytes[16..24], bytes[24..32];
    EightBytes([], b0);
    EightBytes(b0, b1);
    EightBytes(b0 + b1, b2);
    EightBytes((b0 + b1) + b2, b3);
    ValFour(FromBe(b3), FromBe(b2), FromBe(b1), FromBe(b0));
    hide FromBe, Val;
    assert bytes == ((b0 + b1) + b2) + b3;
  }

  /** The product is below 2^256 exactly when its two high limbs are zero. */
  lemma HighLimbs(s: seq<int>)
    requires |s| == 6 && Limbs(s)
    ensures Val(s) < TWO_256 <==> s[4] == 0 && s[5] == 0
  {
    ValSplit(s, 4);
    assert Limbs(s[..4]) && Limbs(s[4..]);
    ValBound(s[..4]);
    assert s[4..] == [s[4], s[5]] && s[4..][1..] == [s[5]];
    assert Val([s[5]]) == s[5] + B * Val([]);
    assert Val(s[4..]) == s[4] + B * s[5];
    Exp4();
    if s[4] != 0 || s[5] != 0 {
      MulLe(1, Val(s[4..]), Exp(4));
    }
  }

  lemma Exp4()
    ensures Exp(1) == B && Exp(2) == TWO_128 && Exp(4) == TWO_256 && Exp(6) == TWO_256 * TWO_128
  {
    assert Exp(1) == B * Exp(0);
    assert Exp(2) == B * Exp(1);
    ExpAdd(2, 2);
    ExpAdd(2, 4);
  }

  /** `true` exactly when the hash times the work (at least one) is below 2^256. */
  method ComputeMeetsTarget(id: BlockId, work0: u128) returns (ok: bool)
    ensures ok == MeetsTarget(id, work0)
    // As a number below 2^256, the id times the work, or times one if there is none, stays below 2^256.
    ensures ok <==> id as nat * (if work0 < 1 then 1 else work0) < TWO_256
  {
    var work: u128 := Max(work0, 1);
    var bytes := IdBytes(id);
    IdHasThirtyTwoBytes(id);
    var h := HashLimbs(bytes);
    LimbsOfId(bytes);
    var w: seq<int> := [work % B, work / B];
    LimbsOfWork(work);
    hide Val, Exp, Shift, HashLimbs, IdBytes, FromBe;
    var prod := new int[6](_ => 0);
    assert prod[..] == [0, 0, 0, 0, 0, 0];
    AllZero();
    assert h[..0] == [];
    for i := 0 to 4
      invariant Limbs(prod[..]) && Val(prod[..]) == Val(h[..i]) * work
    {
      NextRow(h, i, work);
      RowFits(h, i, id as nat, work);
      MultiplyRow(prod, h[i], w, i);
    }
    assert h[..4] == h;
    HighLimbs(prod[..]);
    ok := prod[4] == 0 && prod[5] == 0;
  }

  lemma IdHasThirtyTwoBytes(id: BlockId)
    ensures |IdBytes(id)| == 32 && FromBe(IdBytes(id)) == id as nat
  {
    Widths();
    BeRoundTrip(id as nat, 32);
  }

  lemma AllZero()
    ensures Val([0, 0, 0, 0, 0, 0]) == 0 && Val([]) == 0
  {
    ValSplit([0, 0, 0, 0, 0, 0], 0);
    assert [0, 0, 0, 0, 0, 0][1..] == [0, 0, 0, 0, 0];
    assert [0, 0, 0, 0, 0][1..] == [0, 0, 0, 0];
    assert [0, 0, 0, 0][1..] == [0, 0, 0];
    assert [0, 0, 0][1..] == [0, 0];
    assert [0, 0][1..] == [0];
    assert [0][1..] == [];
    assert Val([0]) == 0;
    assert Val([0, 0]) == 0;
    assert Val([0, 0, 0]) == 0;
    assert Val([0, 0, 0, 0]) == 0;
  }

  lemma LimbsOfWork(work: u128)
    ensures Limbs([work % B, work / B]) && Val([work % B, work / B]) == work
  {
    DivBounds(work, B);
    var w := [work % B, work / B];
    assert w[1..] == [work / B];
    assert Val([work / B]) == work / B + B * Val([]);
  }

  /** The next row's contribution. */
  lemma NextRow(h: seq<int>, i: nat, work: int)
    requires i < |h|
    ensures Val(h[..i + 1]) * work == Val(h[..i]) * work + Shift(i, h[i] * work)
  {
    ValSplit(h[..i + 1], i);
    assert h[..i + 1][..i] == h[..i] && h[..i + 1][i..] == [h[i]];
    assert Val([h[i]]) == h[i] + B * Val([h[i]][1..]);
    var e, v, x := Exp(i), Val(h[..i]), h[i];
    hide Val, Exp;
    assert (v + e * x) * work == v * work + e * (x * work);
  }

  /** A prefix of the limbs is at most the whole number. */
  lemma PrefixBelow(h: seq<int>, i: nat)
    requires Limbs(h) && i <= |h|
    ensures 0 <= Val(h[..i]) <= Val(h)
  {
    ValSplit(h, i);
    assert Limbs(h[i..]) && Limbs(h[..i]);
    ValBound(h[i..]);
    ValBound(h[..i]);
    MulNonNegative(Exp(i), Val(h[i..]));
  }

  /** Every partial product still fits six limbs. */
  lemma RowFits(h: seq<int>, i: nat, id: nat, work: u128)
    requires |h| == 4 && Limbs(h) && i < 4 && Val(h) == id < TWO_256
    ensures Val(h[..i]) * work + Shift(i, h[i] * work) < Exp(6)
  {
    NextRow(h, i, work);
    PrefixBelow(h, i + 1);
    MulLe(Val(h[..i + 1]), TWO_256 - 1, work);
    MulLe(work, TWO_128 - 1, TWO_256 - 1);
    Exp4();
  }

  // ------------------------------------------------------------------

  function WithNonce(b: Block, nonce: u64): Block {
    b.(nonce := nonce)
  }

  predicate IsMined(b: Block) {
    MeetsTarget(Id(b), b.work)
  }

  /** The first nonce at or above `start` whose block meets its target, if any is left. */
  function MineFrom(template: Block, start: nat): Option<Block>
    requires start <= TWO_64
    decreases TWO_64 - start
  {
    if start == TWO_64 then None
    else if IsMined(WithNonce(template, start)) then Some(WithNonce(template, start))
    else MineFrom(template, start + 1)
  }

  /** Mining finds the least passing nonce, changes nothing else, and gives up only when
      no nonce from `start` on passes. */
  lemma {:induction false} MinesLeastNonce(template: Block, start: nat)
    requires start <= TWO_64
    ensures match MineFrom(template, start)
            case None => forall n: u64 :: start <= n ==> !IsMined(WithNonce(template, n))
            case Some(b) =>
              && b == WithNonce(template, b.nonce) && IsMined(b) && start <= b.nonce
              && forall n: u64 :: start <= n < b.nonce ==> !IsMined(WithNonce(template, n))
    decreases TWO_64 - start
  {
    if start < TWO_64 && !IsMined(WithNonce(template, start)) {
      MinesLeastNonce(template, start + 1);
    }
  }
}
