/**
 * The length-prefixed writers and cursor readers of golang.org/x/crypto/cryptobyte, as far as the TLS codecs use
 * them: builders that may have failed, and readers that return what is left.
 */
module Cryptobyte {
  import opened Wrappers

  type byte = x: int | 0 <= x < 256
  type bytes = seq<byte>

  // ---------- Numbers ----------

  function U8(n: nat): bytes { [n % 256] }

  function U16(n: nat): (b: bytes)
    ensures |b| == 2
  {
    [n / 0x100 % 256, n % 256]
  }

  function U24(n: nat): (b: bytes)
    ensures |b| == 3
  {
    [n / 0x1_0000 % 256, n / 0x100 % 256, n % 256]
  }

  function U32(n: nat): (b: bytes)
    ensures |b| == 4
  {
    U16(n / 0x1_0000 % 0x1_0000) + U16(n % 0x1_0000)
  }

  function U64(n: nat): (b: bytes)
    ensures |b| == 8
  {
    U32(n / 0x1_0000_0000) + U32(n % 0x1_0000_0000)
  }

  /** What a reader makes of the front of s, and what it leaves. */
  datatype Read<+T> = Short | Got(value: T, rest: bytes)

  function ReadBytes(s: bytes, n: nat): Read<bytes> {
    if |s| < n then Short else Got(s[..n], s[n..])
  }

  function ReadU8(s: bytes): Read<byte> {
    if |s| < 1 then Short else Got(s[0], s[1..])
  }

  function ReadU16(s: bytes): (r: Read<nat>)
    ensures r.Got? ==> r.value < 0x1_0000
  {
    if |s| < 2 then Short else Got(s[0] as nat * 0x100 + s[1] as nat, s[2..])
  }

  function ReadU24(s: bytes): (r: Read<nat>)
    ensures r.Got? ==> r.value < 0x100_0000
  {
    if |s| < 3 then Short else Got((s[0] as nat * 0x100 + s[1] as nat) * 0x100 + s[2] as nat, s[3..])
  }

  function ReadU32(s: bytes): (r: Read<nat>)
    ensures r.Got? ==> r.value < 0x1_0000_0000
  {
    if |s| < 4 then Short
    else
      var hi := ReadU16(s);
      var lo := ReadU16(hi.rest);
      Got(hi.value * 0x1_0000 + lo.value, lo.rest)
  }

  function ReadU64(s: bytes): (r: Read<nat>)
    ensures r.Got? ==> r.value < 0x1_0000_0000_0000_0000
  {
    match ReadU32(s)
    case Short => Short
    case Got(hi, rest) =>
      match ReadU32(rest)
      case Short => Short
      case Got(lo, rest') => Got(hi * 0x1_0000_0000 + lo, rest')
  }

  lemma U8RoundTrip(n: nat, rest: bytes)
    requires n < 256
    ensures ReadU8(U8(n) + rest) == Got(n, rest)
  {
  }

  lemma U16RoundTrip(n: nat, rest: bytes)
    requires n < 0x1_0000
    ensures ReadU16(U16(n) + rest) == Got(n, rest)
  {
  }

  lemma U24RoundTrip(n: nat, rest: bytes)
    requires n < 0x100_0000
    ensures ReadU24(U24(n) + rest) == Got(n, rest)
  {
  }

  lemma U32RoundTrip(n: nat, rest: bytes)
    requires n < 0x1_0000_0000
    ensures ReadU32(U32(n) + rest) == Got(n, rest)
  {
    hide U16, ReadU16;
    var hi, lo := n / 0x1_0000, n % 0x1_0000;
    assert U32(n) + rest == U16(hi) + (U16(lo) + rest);
    U16RoundTrip(hi, U16(lo) + rest);
    U16RoundTrip(lo, rest);
  }

  lemma U64RoundTrip(n: nat, rest: bytes)
    requires n < 0x1_0000_0000_0000_0000
    ensures ReadU64(U64(n) + rest) == Got(n, rest)
  {
    hide U32, ReadU32;
    var hi, lo := n / 0x1_0000_0000, n % 0x1_0000_0000;
    assert U64(n) + rest == U32(hi) + (U32(lo) + rest);
    U32RoundTrip(hi, U32(lo) + rest);
    U32RoundTrip(lo, rest);
  }

  /** Reading what is there and writing it again gives the same bytes. */
  lemma ReadU16Inverse(s: bytes)
    requires ReadU16(s).Got?
    ensures s == U16(ReadU16(s).value) + ReadU16(s).rest
  {
  }

  // ---------- Builders ----------

  /** The bytes a builder has collected; None once it has met an error. */
  type builder = Option<bytes>

  function Cat(a: builder, b: builder): builder {
    if a.Some? && b.Some? then Some(a.value + b.value) else None
  }

  function Prefix8(b: builder): builder {
    if b.Some? && |b.value| < 0x100 then Some(U8(|b.value|) + b.value) else None
  }

  function Prefix16(b: builder): builder {
    if b.Some? && |b.value| < 0x1_0000 then Some(U16(|b.value|) + b.value) else None
  }

  function Prefix24(b: builder): builder {
    if b.Some? && |b.value| < 0x100_0000 then Some(U24(|b.value|) + b.value) else None
  }

  function ReadPrefix8(s: bytes): Read<bytes> {
    match ReadU8(s)
    case Short => Short
    case Got(n, rest) => ReadBytes(rest, n)
  }

  function ReadPrefix16(s: bytes): (r: Read<bytes>)
    ensures r.Got? ==> |r.value| < 0x1_0000 && |r.rest| < |s|
  {
    match ReadU16(s)
    case Short => Short
    case Got(n, rest) => ReadBytes(rest, n)
  }

  function ReadPrefix24(s: bytes): (r: Read<bytes>)
    ensures r.Got? ==> |r.rest| < |s|
  {
    match ReadU24(s)
    case Short => Short
    case Got(n, rest) => ReadBytes(rest, n)
  }

  lemma Prefix8RoundTrip(x: bytes, rest: bytes)
    requires Prefix8(Some(x)).Some?
    ensures ReadPrefix8(Prefix8(Some(x)).value + rest) == Got(x, rest)
  {
    hide U8, ReadU8;
    assert U8(|x|) + x + rest == U8(|x|) + (x + rest);
    U8RoundTrip(|x|, x + rest);
    assert (x + rest)[..|x|] == x && (x + rest)[|x|..] == rest;
  }

  lemma Prefix16RoundTrip(x: bytes, rest: bytes)
    requires Prefix16(Some(x)).Some?
    ensures ReadPrefix16(Prefix16(Some(x)).value + rest) == Got(x, rest)
  {
    hide U16, ReadU16;
    assert U16(|x|) + x + rest == U16(|x|) + (x + rest);
    U16RoundTrip(|x|, x + rest);
    assert (x + rest)[..|x|] == x && (x + rest)[|x|..] == rest;
  }

  lemma Prefix24RoundTrip(x: bytes, rest: bytes)
    requires Prefix24(Some(x)).Some?
    ensures ReadPrefix24(Prefix24(Some(x)).value + rest) == Got(x, rest)
  {
    hide U24, ReadU24;
    assert U24(|x|) + x + rest == U24(|x|) + (x + rest);
    U24RoundTrip(|x|, x + rest);
    assert (x + rest)[..|x|] == x && (x + rest)[|x|..] == rest;
  }

  /** A prefixed string read off the front was written there. */
  lemma ReadPrefix16Inverse(s: bytes)
    requires ReadPrefix16(s).Got?
    ensures Prefix16(Some(ReadPrefix16(s).value)).Some?
    ensures s == Prefix16(Some(ReadPrefix16(s).value)).value + ReadPrefix16(s).rest
  {
    hide ReadU16, U16;
    ReadU16Inverse(s);
    var n, rest := ReadU16(s).value, ReadU16(s).rest;
    assert rest == rest[..n] + rest[n..];
    assert U16(n) + (rest[..n] + rest[n..]) == U16(n) + rest[..n] + rest[n..];
  }

  lemma ReadPrefix8Inverse(s: bytes)
    requires ReadPrefix8(s).Got?
    ensures Prefix8(Some(ReadPrefix8(s).value)).Some?
    ensures s == Prefix8(Some(ReadPrefix8(s).value)).value + ReadPrefix8(s).rest
  {
    var n, rest := s[0], s[1..];
    assert s == [n] + rest;
    assert rest == rest[..n] + rest[n..];
    assert [n] + (rest[..n] + rest[n..]) == [n] + rest[..n] + rest[n..];
  }

  lemma CatAssoc(a: builder, b: builder, c: builder)
    ensures Cat(Cat(a, b), c) == Cat(a, Cat(b, c))
  {
    if a.Some? && b.Some? && c.Some? {
      assert (a.value + b.value) + c.value == a.value + (b.value + c.value);
    }
  }

  // ---------- Lists ----------

  /** One element after the other. */
  function EncodeAll<T>(write: T -> builder, xs: seq<T>): builder {
    if xs == [] then Some([]) else Cat(write(xs[0]), EncodeAll(write, xs[1..]))
  }

  /** Reads elements until nothing is left; a reader that takes nothing away would not come to an end. */
  function DecodeAll<T>(read: bytes -> Read<T>, s: bytes): Option<seq<T>>
    decreases |s|
  {
    if s == [] then Some([])
    else
      match read(s)
      case Short => None
      case Got(x, rest) =>
        if |rest| >= |s| then None
        else
          match DecodeAll(read, rest)
          case None => None
          case Some(xs) => Some([x] + xs)
  }

  /** What write puts down for x, read takes up again, whatever follows. */
  ghost predicate ReadsBack<T>(write: T -> builder, read: bytes -> Read<T>, x: T) {
    write(x).Some? ==> write(x).value != [] && forall rest: bytes :: read(write(x).value + rest) == Got(x, rest)
  }

  lemma {:induction false} ListRoundTrip<T>(write: T -> builder, read: bytes -> Read<T>, xs: seq<T>)
    requires forall i :: 0 <= i < |xs| ==> ReadsBack(write, read, xs[i])
    ensures EncodeAll(write, xs).Some? ==> DecodeAll(read, EncodeAll(write, xs).value) == Some(xs)
    decreases |xs|
  {
    if xs != [] && EncodeAll(write, xs).Some? {
      assert ReadsBack(write, read, xs[0]);
      forall i | 0 <= i < |xs[1..]|
        ensures ReadsBack(write, read, xs[1..][i])
      {
        assert xs[1..][i] == xs[i + 1];
      }
      ListRoundTrip(write, read, xs[1..]);
      var first, rest := write(xs[0]).value, EncodeAll(write, xs[1..]).value;
      assert read(first + rest) == Got(xs[0], rest);
      assert [xs[0]] + xs[1..] == xs;
    }
  }

  /** What read takes up, write has put down. */
  ghost predicate WritesBack<T>(write: T -> builder, read: bytes -> Read<T>, s: bytes) {
    read(s).Got? ==> write(read(s).value).Some? && s == write(read(s).value).value + read(s).rest
  }

  lemma {:induction false} ListInverse<T>(write: T -> builder, read: bytes -> Read<T>, s: bytes)
    requires forall t: bytes :: WritesBack(write, read, t)
    ensures DecodeAll(read, s).Some? ==> EncodeAll(write, DecodeAll(read, s).value) == Some(s)
    decreases |s|
  {
    if s != [] && DecodeAll(read, s).Some? {
      assert WritesBack(write, read, s);
      var x, rest := read(s).value, read(s).rest;
      ListInverse(write, read, rest);
      assert ([x] + DecodeAll(read, rest).value)[1..] == DecodeAll(read, rest).value;
    }
  }

  lemma {:induction false} AllDecoded<T>(read: bytes -> Read<T>, good: T -> bool, s: bytes)
    requires forall t: bytes :: read(t).Got? ==> good(read(t).value)
    ensures DecodeAll(read, s).Some? ==>
              && (forall i :: 0 <= i < |DecodeAll(read, s).value| ==> good(DecodeAll(read, s).value[i]))
              && (s != [] ==> DecodeAll(read, s).value != [])
    decreases |s|
  {
    if s != [] && DecodeAll(read, s).Some? {
      AllDecoded(read, good, read(s).rest);
    }
  }

  /** The loops of the marshalling functions. */
  method WriteAll<T>(write: T -> builder, xs: seq<T>) returns (b: builder)
    ensures b == EncodeAll(write, xs)
  {
    b := Some([]);
    CatEmpty(EncodeAll(write, xs));
    for i := 0 to |xs|
      invariant Cat(b, EncodeAll(write, xs[i..])) == EncodeAll(write, xs)
    {
      assert xs[i..][1..] == xs[i + 1..];
      CatAssoc(b, write(xs[i]), EncodeAll(write, xs[i + 1..]));
      b := Cat(b, write(xs[i]));
    }
    CatEmpty(b);
  }

  lemma CatEmpty(b: builder)
    ensures Cat(b, Some([])) == b == Cat(Some([]), b)
  {
    if b.Some? {
      assert b.value + [] == b.value == [] + b.value;
    }
  }

  /** The loops of the unmarshalling functions, which stop at the first element that cannot be read. */
  method ReadAll<T>(read: bytes -> Read<T>, s: bytes) returns (xs: Option<seq<T>>)
    ensures xs == DecodeAll(read, s)
  {
    var list: seq<T>, rest := [], s;
    OntoEmpty(DecodeAll(read, s));
    while rest != []
      invariant DecodeAll(read, s) == Onto(list, DecodeAll(read, rest))
      decreases |rest|
    {
      var r := read(rest);
      if r.Short? || |r.rest| >= |rest| {
        return None;
      }
      OntoAssoc(list, r.value, DecodeAll(read, r.rest));
      list, rest := list + [r.value], r.rest;
    }
    assert list + [] == list;
    return Some(list);
  }

  function Onto<T>(front: seq<T>, back: Option<seq<T>>): Option<seq<T>> {
    if back.Some? then Some(front + back.value) else None
  }

  lemma OntoEmpty<T>(back: Option<seq<T>>)
    ensures Onto([], back) == back
  {
    if back.Some? {
      assert [] + back.value == back.value;
    }
  }

  lemma OntoAssoc<T>(front: seq<T>, x: T, back: Option<seq<T>>)
    ensures Onto(front, Onto([x], back)) == Onto(front + [x], back)
  {
    if back.Some? {
      assert front + ([x] + back.value) == (front + [x]) + back.value;
    }
  }

  // ---------- Strings that stand alone ----------

  lemma Alone8(x: bytes)
    requires Prefix8(Some(x)).Some?
    ensures ReadPrefix8(Prefix8(Some(x)).value) == Got(x, [])
  {
    hide Prefix8, ReadPrefix8;
    Prefix8RoundTrip(x, []);
    assert Prefix8(Some(x)).value + [] == Prefix8(Some(x)).value;
  }

  lemma Alone16(x: bytes)
    requires Prefix16(Some(x)).Some?
    ensures ReadPrefix16(Prefix16(Some(x)).value) == Got(x, [])
  {
    hide Prefix16, ReadPrefix16;
    Prefix16RoundTrip(x, []);
    assert Prefix16(Some(x)).value + [] == Prefix16(Some(x)).value;
  }

  lemma PrefixSome8(b: builder)
    requires Prefix8(b).Some?
    ensures b.Some?
  {
  }

  lemma PrefixSome16(b: builder)
    requires Prefix16(b).Some?
    ensures b.Some?
  {
  }

  lemma PrefixSome24(b: builder)
    requires Prefix24(b).Some?
    ensures b.Some?
  {
  }

  lemma PrefixNonempty(b: builder)
    requires Prefix16(b).Some?
    ensures Prefix16(b).value != []
  {
  }
}
