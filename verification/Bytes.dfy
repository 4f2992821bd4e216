/** Byte-level encodings of integers. */
module Bytes {
  import opened Types
  import opened Arithmetic

  type Bytes = seq<byte>

  ghost function Pow256(n: nat): nat {
    if n == 0 then 1 else 256 * Pow256(n - 1)
  }

  /** `n` bytes of `x`, least significant first. */
  function ToLe(x: nat, n: nat): Bytes {
    if n == 0 then [] else [(x % 256) as byte] + ToLe(x / 256, n - 1)
  }

  function FromLe(b: Bytes): nat {
    if b == [] then 0 else b[0] as nat + 256 * FromLe(b[1..])
  }

  function Reverse<T>(b: seq<T>): seq<T> {
    if b == [] then [] else Reverse(b[1..]) + [b[0]]
  }

  function ToBe(x: nat, n: nat): Bytes {
    Reverse(ToLe(x, n))
  }

  function FromBe(b: Bytes): nat {
    FromLe(Reverse(b))
  }

  lemma {:induction false} ToLeLength(x: nat, n: nat)
    ensures |ToLe(x, n)| == n
  {
    if n > 0 {
      ToLeLength(x / 256, n - 1);
    }
  }

  /** Little-endian encoding loses nothing of a number that fits. */
  lemma {:induction false} FromToLe(x: nat, n: nat)
    requires x < Pow256(n)
    ensures FromLe(ToLe(x, n)) == x
  {
    if n > 0 {
      FromToLe(x / 256, n - 1);
      var b := ToLe(x, n);
      assert b[1..] == ToLe(x / 256, n - 1);
    }
  }

  /** Distinct byte strings of one length spell distinct numbers. */
  lemma {:induction false} ToFromLe(b: Bytes)
    ensures FromLe(b) < Pow256(|b|) && ToLe(FromLe(b), |b|) == b
  {
    if b != [] {
      ToFromLe(b[1..]);
      var x := FromLe(b);
      assert x % 256 == b[0] as nat && x / 256 == FromLe(b[1..]);
      assert b == [b[0]] + b[1..];
    }
  }

  lemma {:induction false} ReverseSnoc<T>(b: seq<T>, x: T)
    ensures Reverse(b + [x]) == [x] + Reverse(b)
  {
    if b != [] {
      ReverseSnoc(b[1..], x);
      assert (b + [x])[1..] == b[1..] + [x];
    }
  }

  lemma {:induction false} ReverseTwice<T>(b: seq<T>)
    ensures Reverse(Reverse(b)) == b && |Reverse(b)| == |b|
  {
    if b != [] {
      ReverseTwice(b[1..]);
      ReverseSnoc(Reverse(b[1..]), b[0]);
    }
  }

  lemma BeRoundTrip(x: nat, n: nat)
    requires x < Pow256(n)
    ensures |ToBe(x, n)| == n && FromBe(ToBe(x, n)) == x
  {
    ToLeLength(x, n);
    ReverseTwice(ToLe(x, n));
    FromToLe(x, n);
  }

  lemma BytesRoundTripBe(b: Bytes)
    ensures FromBe(b) < Pow256(|b|) && ToBe(FromBe(b), |b|) == b
  {
    ReverseTwice(b);
    ToFromLe(Reverse(b));
  }

  lemma Widths()
    ensures Pow256(2) == TWO_16 && Pow256(4) == TWO_32 && Pow256(8) == TWO_64
    ensures Pow256(16) == TWO_128 && Pow256(32) == TWO_256
  {
    assert Pow256(1) == 256;
    assert Pow256(2) == 0x1_0000;
    assert Pow256(3) == 0x100_0000;
    assert Pow256(4) == 0x1_0000_0000;
    assert Pow256(5) == 0x100_0000_0000;
    assert Pow256(6) == 0x1_0000_0000_0000;
    assert Pow256(7) == 0x100_0000_0000_0000;
    assert Pow256(8) == 0x1_0000_0000_0000_0000;
    PowAdd(8, 8);
    PowAdd(16, 16);
  }

  lemma {:induction false} PowAdd(m: nat, n: nat)
    ensures Pow256(m + n) == Pow256(m) * Pow256(n)
  {
    if m > 0 {
      PowAdd(m - 1, n);
    }
  }

  lemma {:induction false} ReverseAt<T>(b: seq<T>, i: nat)
    requires i < |b|
    ensures |Reverse(b)| == |b| && Reverse(b)[|b| - 1 - i] == b[i]
  {
    if |b| > 1 {
      ReverseAt(b[1..], if i > 0 then i - 1 else 0);
    }
  }

  lemma {:induction false} Pow256Positive(n: nat)
    ensures Pow256(n) > 0
  {
    if n > 0 {
      Pow256Positive(n - 1);
    }
  }

  /** Byte `i` of a little-endian number is its digit of weight 256 to the `i`; of a big-endian one
      the digits run the other way. */
  lemma {:induction false} Digits(x: nat, n: nat, i: nat)
    requires i < n
    ensures Pow256(i) > 0 && |ToLe(x, n)| == n && |ToBe(x, n)| == n
    ensures ToLe(x, n)[i] as nat == x / Pow256(i) % 256
    ensures ToBe(x, n)[n - 1 - i] == ToLe(x, n)[i]
  {
    ToLeLength(x, n);
    ReverseAt(ToLe(x, n), i);
    if i > 0 {
      Digits(x / 256, n - 1, i - 1);
      Pow256Positive(i - 1);
      DivTwice(x, 256, Pow256(i - 1));
      assert ToLe(x, n)[i] == ToLe(x / 256, n - 1)[i - 1];
    }
  }
}
