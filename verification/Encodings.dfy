/** Self-delimiting encodings, and the bounds-checked cursor that decoders share. */
module Encodings {
  import opened Types
  import opened Arithmetic
  import opened Bytes

  /** The encodings of a list of items, one after another. */
  function EncodeAll<T>(f: T -> Bytes, s: seq<T>): Bytes {
    if s == [] then [] else f(s[0]) + EncodeAll(f, s[1..])
  }

  /** What follows an encoding tells nothing about the item it encodes. */
  ghost predicate Splits<T>(f: T -> Bytes, a: T, b: T, r: Bytes, r': Bytes) {
    f(a) + r == f(b) + r' ==> a == b && r == r'
  }

  ghost predicate SelfDelimiting<T(!new)>(f: T -> Bytes, ok: T -> bool) {
    forall a, b, r, r' {:trigger Splits(f, a, b, r, r')} :: ok(a) && ok(b) ==> Splits(f, a, b, r, r')
  }

  ghost predicate FixedWidth<T(!new)>(f: T -> Bytes, w: nat) {
    forall a {:trigger f(a)} :: |f(a)| == w
  }

  lemma {:induction false} EncodeSnoc<T>(f: T -> Bytes, s: seq<T>, x: T)
    ensures EncodeAll(f, s + [x]) == EncodeAll(f, s) + f(x)
  {
    if s == [] {
      assert [] + [x] == [x];
      assert EncodeAll(f, [x]) == f(x) + EncodeAll(f, []);
    } else {
      assert (s + [x])[1..] == s[1..] + [x];
      EncodeSnoc(f, s[1..], x);
      assert f(s[0]) + (EncodeAll(f, s[1..]) + f(x)) == f(s[0]) + EncodeAll(f, s[1..]) + f(x);
    }
  }
  lemma {:induction false} MinimumLength<T>(f: T -> Bytes, w: nat, s: seq<T>)
    requires forall x {:trigger f(x)} :: x in s ==> |f(x)| >= w
    ensures |EncodeAll(f, s)| >= w * |s|
  {
    if s != [] {
      MinimumLength(f, w, s[1..]);
      assert s[0] in s;
      assert w * |s| == w + w * (|s| - 1);
    }
  }

  /** A list read off the front of an encoded list is the front of that list. */
  lemma {:induction false} SharedFront<T(!new)>(f: T -> Bytes, ok: T -> bool, s: seq<T>, t: seq<T>, r: Bytes, r': Bytes)
    requires SelfDelimiting(f, ok) && (forall x :: x in s || x in t ==> ok(x))
    requires |s| <= |t| && EncodeAll(f, s) + r == EncodeAll(f, t) + r'
    ensures s == t[..|s|] && r == EncodeAll(f, t[|s|..]) + r'
  {
    if s != [] {
      var a, b := s[0], t[0];
      assert a in s && b in t;
      var rs, rt := EncodeAll(f, s[1..]) + r, EncodeAll(f, t[1..]) + r';
      assert EncodeAll(f, s) + r == f(a) + rs;
      assert EncodeAll(f, t) + r' == f(b) + rt;
      assert Splits(f, a, b, rs, rt);
      SharedFront(f, ok, s[1..], t[1..], r, r');
      assert s == [a] + s[1..];
      assert t[1..][|s| - 1..] == t[|s|..];
    } else {
      assert t[0..] == t;
    }
  }

  /** Lists of one length with the same encodings, up to what follows, are equal. */
  lemma SameList<T(!new)>(f: T -> Bytes, ok: T -> bool, s: seq<T>, t: seq<T>, r: Bytes, r': Bytes)
    requires SelfDelimiting(f, ok) && (forall x :: x in s || x in t ==> ok(x))
    requires |s| == |t| && EncodeAll(f, s) + r == EncodeAll(f, t) + r'
    ensures s == t && r == r'
  {
    SharedFront(f, ok, s, t, r, r');
    assert EncodeAll(f, t[|s|..]) + r' == r';
  }

  lemma SplitEqual(a: Bytes, b: Bytes, r: Bytes, r': Bytes)
    requires |a| == |b| && a + r == b + r'
    ensures a == b && r == r'
  {
    assert (a + r)[..|a|] == a && (b + r')[..|a|] == b;
    assert (a + r)[|a|..] == r && (b + r')[|a|..] == r';
  }

  /** Fixed-width numbers are told apart by their bytes. */
  lemma SameLe(x: nat, y: nat, n: nat, r: Bytes, r': Bytes)
    requires x < Pow256(n) && y < Pow256(n) && ToLe(x, n) + r == ToLe(y, n) + r'
    ensures x == y && r == r'
  {
    ToLeLength(x, n);
    ToLeLength(y, n);
    SplitEqual(ToLe(x, n), ToLe(y, n), r, r');
    FromToLe(x, n);
    FromToLe(y, n);
  }

  lemma SameBe(x: nat, y: nat, n: nat, r: Bytes, r': Bytes)
    requires x < Pow256(n) && y < Pow256(n) && ToBe(x, n) + r == ToBe(y, n) + r'
    ensures x == y && r == r'
  {
    BeRoundTrip(x, n);
    BeRoundTrip(y, n);
    SplitEqual(ToBe(x, n), ToBe(y, n), r, r');
  }

  // ------------------------------------------------------------------
  // Length-prefixed lists

  /** A list as its length followed by its items. */
  function EncodeList<T>(f: T -> Bytes, s: seq<T>): Bytes {
    ToLe(|s|, 8) + EncodeAll(f, s)
  }

  /** Raw bytes after their length. */
  function EncodeRaw(b: Bytes): Bytes {
    ToLe(|b|, 8) + b
  }

  predicate FitsWord(b: Bytes) {
    |b| < TWO_64
  }

  ghost predicate ListOk<T(!new)>(ok: T -> bool, s: seq<T>) {
    |s| < TWO_64 && forall x :: x in s ==> ok(x)
  }

  /** Reading one item: success takes exactly its encoding off the front; failure means
      that no encoding stands there. */
  ghost predicate ReadsItem<T(!new)>(f: T -> Bytes, ok: T -> bool, start: Bytes, r: Option<T>, rest: Bytes) {
    && (r.Some? ==> ok(r.value) && start == f(r.value) + rest)
    && (r.None? ==> forall x, tail {:trigger f(x) + tail} :: ok(x) ==> start != f(x) + tail)
  }

  ghost predicate ReadsList<T(!new)>(f: T -> Bytes, ok: T -> bool, start: Bytes, r: Option<seq<T>>, rest: Bytes) {
    && (r.Some? ==> ListOk(ok, r.value) && start == EncodeList(f, r.value) + rest)
    && (r.None? ==>
          forall s, tail {:trigger EncodeList(f, s) + tail} :: ListOk(ok, s) ==> start != EncodeList(f, s) + tail)
  }

  lemma RawSplits(a: Bytes, b: Bytes, r: Bytes, r': Bytes)
    requires FitsWord(a) && FitsWord(b) && EncodeRaw(a) + r == EncodeRaw(b) + r'
    ensures a == b && r == r'
  {
    EightBytesWide();
    hide ToLe;
    assert EncodeRaw(a) + r == ToLe(|a|, 8) + (a + r);
    assert EncodeRaw(b) + r' == ToLe(|b|, 8) + (b + r');
    SameLe(|a|, |b|, 8, a + r, b + r');
    SplitEqual(a, b, r, r');
  }

  predicate Any<T>(x: T) {
    true
  }

  lemma ListSplits<T(!new)>(f: T -> Bytes, ok: T -> bool, s: seq<T>, t: seq<T>, r: Bytes, r': Bytes)
    requires SelfDelimiting(f, ok) && ListOk(ok, s) && ListOk(ok, t) && EncodeList(f, s) + r == EncodeList(f, t) + r'
    ensures s == t && r == r'
  {
    EightBytesWide();
    hide ToLe, EncodeAll, SelfDelimiting;
    assert EncodeList(f, s) + r == ToLe(|s|, 8) + (EncodeAll(f, s) + r);
    assert EncodeList(f, t) + r' == ToLe(|t|, 8) + (EncodeAll(f, t) + r');
    SameLe(|s|, |t|, 8, EncodeAll(f, s) + r, EncodeAll(f, t) + r');
    SameList(f, ok, s, t, r, r');
  }

  /** The length guard of `ReadCount` refuses no list that is really there. */
  lemma CountRefusesList<T(!new)>(f: T -> Bytes, ok: T -> bool, w: nat, start: Bytes, rest: Bytes)
    requires forall x {:trigger f(x)} :: ok(x) ==> |f(x)| >= w
    requires forall n: nat, tail {:trigger ToLe(n, 8) + tail} ::
               n < TWO_64 && start == ToLe(n, 8) + tail ==> |tail| < w * n
    ensures ReadsList(f, ok, start, None, rest)
  {
    hide ToLe, EncodeAll;
    forall s, tail | ListOk(ok, s) ensures start != EncodeList(f, s) + tail {
      MinimumLength(f, w, s);
      assert EncodeList(f, s) + tail == ToLe(|s|, 8) + (EncodeAll(f, s) + tail);
    }
  }

  /** When an item is missing before the declared count is reached, no list is there. */
  lemma ItemRefusesList<T(!new)>(f: T -> Bytes, ok: T -> bool, start: Bytes, n: nat, s: seq<T>, rest: Bytes,
                                 rest': Bytes)
    requires SelfDelimiting(f, ok) && n < TWO_64 && |s| < n && (forall x :: x in s ==> ok(x))
    requires start == ToLe(n, 8) + (EncodeAll(f, s) + rest)
    requires ReadsItem(f, ok, rest, None, rest')
    ensures ReadsList(f, ok, start, None, rest')
  {
    EightBytesWide();
    hide ToLe, EncodeAll, SelfDelimiting;
    forall t, tail | ListOk(ok, t) ensures start != EncodeList(f, t) + tail {
      if start == EncodeList(f, t) + tail {
        assert start == ToLe(|t|, 8) + (EncodeAll(f, t) + tail);
        SameLe(n, |t|, 8, EncodeAll(f, s) + rest, EncodeAll(f, t) + tail);
        SharedFront(f, ok, s, t, rest, tail);
        assert t[|s|..][0] == t[|s|] && t[|s|] in t;
        FirstItem(f, t[|s|..], tail);
      }
    }
  }

  lemma FirstItem<T>(f: T -> Bytes, s: seq<T>, tail: Bytes)
    requires s != []
    ensures EncodeAll(f, s) + tail == f(s[0]) + (EncodeAll(f, s[1..]) + tail)
  {
  }

  /** One more item read. */
  lemma ItemExtends<T>(f: T -> Bytes, start: Bytes, n: nat, s: seq<T>, rest: Bytes, x: T, rest': Bytes)
    requires start == ToLe(n, 8) + (EncodeAll(f, s) + rest) && rest == f(x) + rest'
    ensures start == ToLe(n, 8) + (EncodeAll(f, s + [x]) + rest')
  {
    hide ToLe, EncodeAll;
    EncodeSnoc(f, s, x);
    assert EncodeAll(f, s) + (f(x) + rest') == EncodeAll(f, s) + f(x) + rest';
  }

  lemma ListRead<T(!new)>(f: T -> Bytes, ok: T -> bool, start: Bytes, n: nat, s: seq<T>, rest: Bytes)
    requires n < TWO_64 && |s| == n && (forall x :: x in s ==> ok(x))
    requires start == ToLe(n, 8) + (EncodeAll(f, s) + rest)
    ensures ReadsList(f, ok, start, Some(s), rest)
  {
    hide ToLe, EncodeAll;
  }

  // ------------------------------------------------------------------
  // What decoding a whole byte string must give

  datatype DecodeError = UnexpectedEof | TrailingBytes

  /** `bytes` is the encoding of the list `s` followed by `extra`. */
  ghost predicate Carries<T(!new)>(f: T -> Bytes, ok: T -> bool, bytes: Bytes, s: seq<T>, extra: Bytes) {
    ListOk(ok, s) && bytes == EncodeList(f, s) + extra
  }

  /** The list the bytes encode, if they encode one; otherwise whether an encoded list is
      followed by further bytes. */
  ghost function Decoded<T(!new)>(f: T -> Bytes, ok: T -> bool, bytes: Bytes): Result<seq<T>, DecodeError> {
    if exists s :: Carries(f, ok, bytes, s, []) then
      var s :| Carries(f, ok, bytes, s, []);
      Ok(s)
    else if exists s, extra :: Carries(f, ok, bytes, s, extra) then Err(TrailingBytes)
    else Err(UnexpectedEof)
  }

  /** Decoding inverts encoding; bytes after the list are reported as such. */
  lemma DecodeEncode<T(!new)>(f: T -> Bytes, ok: T -> bool, s: seq<T>, extra: Bytes)
    requires SelfDelimiting(f, ok) && ListOk(ok, s)
    ensures Decoded(f, ok, EncodeList(f, s) + extra) == if extra == [] then Ok(s) else Err(TrailingBytes)
  {
    var bytes := EncodeList(f, s) + extra;
    hide EncodeList, SelfDelimiting, ListOk;
    assert Carries(f, ok, bytes, s, extra);
    forall t, x | Carries(f, ok, bytes, t, x) ensures t == s && x == extra {
      ListSplits(f, ok, s, t, extra, x);
    }
  }

  /** Whatever is accepted re-encodes to the very same bytes. */
  lemma EncodeDecode<T(!new)>(f: T -> Bytes, ok: T -> bool, bytes: Bytes)
    ensures Decoded(f, ok, bytes).Ok? ==>
              ListOk(ok, Decoded(f, ok, bytes).value) && EncodeList(f, Decoded(f, ok, bytes).value) == bytes
  {
    if Decoded(f, ok, bytes).Ok? {
      var s := Decoded(f, ok, bytes).value;
      assert Carries(f, ok, bytes, s, []);
      assert EncodeList(f, s) + [] == EncodeList(f, s);
    }
  }

  /** The outcome of decoding, from reading the list and looking at what is left. */
  lemma DecodedByReading<T(!new)>(f: T -> Bytes, ok: T -> bool, bytes: Bytes, r: Option<seq<T>>, rest: Bytes)
    requires SelfDelimiting(f, ok) && ReadsList(f, ok, bytes, r, rest)
    ensures Decoded(f, ok, bytes) ==
            match r
            case None => Err(UnexpectedEof)
            case Some(s) => if rest == [] then Ok(s) else Err(TrailingBytes)
  {
    hide EncodeList, SelfDelimiting, ListOk;
    match r
    case None =>
      forall s, extra ensures !Carries(f, ok, bytes, s, extra) {
        assert ListOk(ok, s) ==> bytes != EncodeList(f, s) + extra;
      }
    case Some(s) =>
      DecodeEncode(f, ok, s, rest);
  }

  // ------------------------------------------------------------------

  lemma EightBytesWide()
    ensures Pow256(8) == TWO_64
  {
    Widths();
  }

  /** Dividing the space left by the element size decides whether the elements fit. */
  lemma CountGuard(n: nat, left: nat, size: nat)
    requires size > 0
    ensures n > left / size ==> left < size * n
    ensures n <= left / size ==> size * n <= left
  {
    DivBounds(left, size);
    if n > left / size {
      MulLe(left / size + 1, n, size);
    } else {
      MulLe(n, left / size, size);
    }
  }

  lemma NoCount(start: Bytes, size: nat)
    requires |start| < 8
    ensures forall n: nat, tail {:trigger ToLe(n, 8) + tail} ::
              n < TWO_64 && start == ToLe(n, 8) + tail ==> |tail| < size * n
  {
    forall n: nat, tail {:trigger ToLe(n, 8) + tail} ensures start != ToLe(n, 8) + tail {
      ToLeLength(n, 8);
    }
  }

  lemma CountRefused(start: Bytes, n: nat, rest: Bytes, size: nat)
    requires n < TWO_64 && start == ToLe(n, 8) + rest && |rest| < size * n
    ensures forall m: nat, tail {:trigger ToLe(m, 8) + tail} ::
              m < TWO_64 && start == ToLe(m, 8) + tail ==> |tail| < size * m
  {
    EightBytesWide();
    forall m: nat, tail | m < TWO_64 && start == ToLe(m, 8) + tail ensures |tail| < size * m {
      SameLe(n, m, 8, rest, tail);
    }
  }

  /** A cursor over a byte string. `None` means the bytes ran out. */
  class Reader {
    const buf: Bytes
    var pos: nat

    ghost predicate Valid()
      reads this
    {
      pos <= |buf|
    }

    /** The bytes not yet read. */
    ghost function Rest(): Bytes
      requires Valid()
      reads this
    {
      buf[pos..]
    }

    constructor (buf: Bytes)
      ensures Valid() && Rest() == buf && this.buf == buf && pos == 0
    {
      this.buf := buf;
      pos := 0;
    }

    function Remaining(): nat
      requires Valid()
      reads this
    {
      |buf| - pos
    }

    method ReadArray(n: nat) returns (r: Option<Bytes>)
      requires Valid()
      modifies this
      ensures Valid()
      ensures r.Some? <==> n <= |old(Rest())|
      ensures r.Some? ==> |r.value| == n && old(Rest()) == r.value + Rest()
      ensures r.None? ==> Rest() == old(Rest())
    {
      if Remaining() < n {
        return None;
      }
      r := Some(buf[pos..pos + n]);
      assert buf[pos..] == buf[pos..pos + n] + buf[pos + n..];
      pos := pos + n;
    }

    /** A little-endian number of `n` bytes. */
    method ReadLe(n: nat) returns (r: Option<nat>)
      requires Valid()
      modifies this
      ensures Valid()
      ensures r.Some? <==> n <= |old(Rest())|
      ensures r.Some? ==>
                |Rest()| == |old(Rest())| - n && r.value < Pow256(n) && old(Rest()) == ToLe(r.value, n) + Rest()
    {
      var bytes := ReadArray(n);
      if bytes.None? {
        return None;
      }
      ToFromLe(bytes.value);
      r := Some(FromLe(bytes.value));
    }

    /** A big-endian digest or key of `n` bytes. */
    method ReadBe(n: nat) returns (r: Option<nat>)
      requires Valid()
      modifies this
      ensures Valid()
      ensures r.Some? <==> n <= |old(Rest())|
      ensures r.Some? ==>
                |Rest()| == |old(Rest())| - n && r.value < Pow256(n) && old(Rest()) == ToBe(r.value, n) + Rest()
    {
      var bytes := ReadArray(n);
      if bytes.None? {
        return None;
      }
      BytesRoundTripBe(bytes.value);
      r := Some(FromBe(bytes.value));
    }

    /** A length prefix, refused when that many elements of `size` bytes cannot follow. */
    method ReadCount(size: nat) returns (r: Option<nat>)
      requires Valid()
      modifies this
      ensures Valid()
      ensures r.Some? ==> r.value < TWO_64 && old(Rest()) == ToLe(r.value, 8) + Rest() && size * r.value <= |Rest()|
      ensures r.None? ==> forall n: nat, tail {:trigger ToLe(n, 8) + tail} ::
                n < TWO_64 && old(Rest()) == ToLe(n, 8) + tail ==> |tail| < size * n
    {
      hide ToLe, Pow256;
      EightBytesWide();
      ghost var start := Rest();
      var n := ReadLe(8);
      if n.None? {
        NoCount(start, size);
        return None;
      }
      if size > 0 {
        CountGuard(n.value, Remaining(), size);
        if n.value > Remaining() / size {
          CountRefused(start, n.value, Rest(), size);
          return None;
        }
      }
      r := n;
    }
  }

  /** Raw bytes after their length, as one read. */
  method ReadRaw(reader: Reader) returns (r: Option<Bytes>)
    requires reader.Valid()
    modifies reader
    ensures reader.Valid() && ReadsItem(EncodeRaw, FitsWord, old(reader.Rest()), r, reader.Rest())
  {
    hide ToLe;
    ghost var start := reader.Rest();
    var len := reader.ReadCount(1);
    if len.None? {
      forall b, tail | FitsWord(b) ensures start != EncodeRaw(b) + tail {
        assert EncodeRaw(b) + tail == ToLe(|b|, 8) + (b + tail);
      }
      return None;
    }
    r := reader.ReadArray(len.value);
    assert r.Some? ==> ToLe(len.value, 8) + (r.value + reader.Rest()) == EncodeRaw(r.value) + reader.Rest();
  }

  lemma NothingYet<T>(f: T -> Bytes, start: Bytes, n: nat, rest: Bytes)
    requires start == ToLe(n, 8) + rest
    ensures start == ToLe(n, 8) + (EncodeAll(f, []) + rest)
  {
    assert [] + rest == rest;
  }

  lemma ItemGiven<T(!new)>(f: T -> Bytes, ok: T -> bool, start: Bytes, r: Option<T>, rest: Bytes)
    requires ReadsItem(f, ok, start, r, rest) && r.Some?
    ensures ok(r.value) && start == f(r.value) + rest
  {
  }
}
