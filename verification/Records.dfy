/**
  The shape shared by every VVG1 list: a count, then records in strictly ascending order
  of their keys. A record's encoding is never a prefix of another's, so a list is
  determined by its bytes; the cursor is how the decoders walk those bytes.
 */
module Records {
  import opened Basics
  import opened Orders
  import Varint

  const U64: nat := Varint.U64

  /** A length-prefixed byte string. */
  function Prefixed(s: Bytes): Bytes {
    Varint.Encode(|s|) + s
  }

  lemma PrefixedStarts(s: Bytes, rest: Bytes)
    requires |s| < U64 && Prefixed(s) <= rest
    ensures Varint.StartsWith(rest, |s|)
  {
  }

  lemma PrefixedPrefixFree(x: Bytes, y: Bytes, s: Bytes)
    requires Prefixed(x) <= s && Prefixed(y) <= s
    ensures x == y
  {
    assert Varint.Encode(|x|) <= Prefixed(x) <= s && Varint.Encode(|y|) <= Prefixed(y) <= s;
    Varint.EncodePrefixFree(|x|, |y|, s);
    var n := |Varint.Encode(|x|)|;
    assert x == Prefixed(x)[n..] == s[n..n + |x|];
    assert y == Prefixed(y)[n..] == s[n..n + |y|];
  }

  /** How one kind of record is written, and which records there can be. */
  datatype Shape<!T> = Shape(enc: T -> Bytes, valid: T -> bool, less: (T, T) -> bool)

  predicate Starts(p: Bytes, s: Bytes) {
    p <= s
  }

  /** A valid record is never empty and never starts another one. */
  ghost predicate PrefixCode<T(!new)>(sh: Shape<T>) {
    && (forall x :: sh.valid(x) ==> sh.enc(x) != [])
    && (forall x, y, s :: sh.valid(x) && sh.valid(y) && Starts(sh.enc(x), s) && Starts(sh.enc(y), s) ==> x == y)
  }

  ghost function EncodeAll<T>(sh: Shape<T>, xs: seq<T>): Bytes {
    if xs == [] then [] else sh.enc(xs[0]) + EncodeAll(sh, xs[1..])
  }

  ghost predicate ValidList<T>(sh: Shape<T>, xs: seq<T>) {
    |xs| < U64 && Ascending(sh.less, xs) && forall x :: x in xs ==> sh.valid(x)
  }

  ghost function EncodeList<T>(sh: Shape<T>, xs: seq<T>): Bytes {
    Varint.Encode(|xs|) + EncodeAll(sh, xs)
  }

  lemma {:induction false} EncodeAllAppend<T>(sh: Shape<T>, xs: seq<T>, x: T)
    ensures EncodeAll(sh, xs + [x]) == EncodeAll(sh, xs) + sh.enc(x)
  {
    if xs == [] {
      assert (xs + [x])[1..] == [];
    } else {
      assert (xs + [x])[1..] == xs[1..] + [x];
      EncodeAllAppend(sh, xs[1..], x);
    }
  }

  lemma {:induction false} EncodeAllSplit<T>(sh: Shape<T>, xs: seq<T>, k: nat)
    requires k <= |xs|
    ensures EncodeAll(sh, xs) == EncodeAll(sh, xs[..k]) + EncodeAll(sh, xs[k..])
  {
    if k > 0 {
      EncodeAllSplit(sh, xs[1..], k - 1);
      assert xs[1..][..k - 1] == xs[..k][1..] && xs[1..][k - 1..] == xs[k..];
    }
  }

  // ----- the cursor -----

  /** A position in a byte string that decoding advances. */
  class Cursor {
    const b: Bytes
    var i: nat

    constructor (b: Bytes)
      ensures this.b == b && i == 0
    {
      this.b := b;
      i := 0;
    }

    ghost predicate Valid()
      reads this
    {
      i <= |b|
    }

    function Rest(): Bytes
      requires Valid()
      reads this
    {
      b[i..]
    }

    /** None is an error and then no 64-bit varint stands here. */
    method Uvarint() returns (r: Option<nat>)
      requires Valid()
      modifies this
      ensures Valid()
      ensures r.Some? ==> Varint.StartsWith(old(Rest()), r.value) && old(Rest()) == Varint.Encode(r.value) + Rest()
      ensures r.None? ==> i == old(i) && forall v :: !Varint.StartsWith(old(Rest()), v)
    {
      var read := Varint.ReadUvarint(b[i..]);
      if read.None? { return None; }
      i := i + read.value.1;
      return Some(read.value.0);
    }

    /** The next n bytes, if there are as many. */
    method Take(n: nat) returns (r: Option<Bytes>)
      requires Valid()
      modifies this
      ensures Valid()
      ensures r.Some? <==> n <= |old(Rest())|
      ensures r.Some? ==> |r.value| == n && old(Rest()) == r.value + Rest()
      ensures r.None? ==> i == old(i)
    {
      if n > |b| - i { return None; }
      r := Some(b[i..i + n]);
      i := i + n;
    }

    method Empty() returns (e: bool)
      requires Valid()
      ensures e <==> Rest() == []
    {
      return i == |b|;
    }

    /** A length-prefixed byte string; on an error none shorter than 2^64 stands here. */
    method TakePrefixed() returns (r: Option<Bytes>)
      requires Valid()
      modifies this
      ensures Valid()
      ensures r.Some? ==> |r.value| < U64 && old(Rest()) == Prefixed(r.value) + Rest()
      ensures r.None? ==> forall s: Bytes :: |s| < U64 ==> !(Prefixed(s) <= old(Rest()))
    {
      ghost var rest := Rest();
      var len := Uvarint();
      if len.None? {
        forall s: Bytes | |s| < U64 ensures !(Prefixed(s) <= rest) {
          if Prefixed(s) <= rest { PrefixedStarts(s, rest); }
        }
        return None;
      }
      r := Take(len.value);
      if r.None? {
        forall s: Bytes | |s| < U64 ensures !(Prefixed(s) <= rest) {
          if Prefixed(s) <= rest {
            assert Varint.Encode(|s|) <= rest && Varint.Encode(len.value) <= rest;
            Varint.EncodePrefixFree(|s|, len.value, rest);
          }
        }
      } else {
        Varint.Associate(Varint.Encode(|r.value|), r.value, Rest());
      }
    }
  }

  // ----- decoding a list -----

  /** Every list of `n` records whose encoding is `s` begins with `got`. */
  ghost predicate Forced<T(!new)>(sh: Shape<T>, s: Bytes, n: nat, got: seq<T>) {
    forall xs :: ValidList(sh, xs) && |xs| == n && EncodeAll(sh, xs) == s ==> |got| <= n && xs[..|got|] == got
  }

  /** The state of a decoding loop over the string `s`: `got` read, `rest` ahead. */
  ghost predicate Decoding<T(!new)>(sh: Shape<T>, s: Bytes, n: nat, got: seq<T>, rest: Bytes) {
    s == EncodeAll(sh, got) + rest && ValidList(sh, got) && |got| <= n && Forced(sh, s, n, got)
  }

  /** No valid list of `n` records encodes to `s`. */
  ghost predicate NoList<T(!new)>(sh: Shape<T>, s: Bytes, n: nat) {
    forall xs :: ValidList(sh, xs) && |xs| == n ==> EncodeAll(sh, xs) != s
  }

  lemma NextOf<T(!new)>(sh: Shape<T>, s: Bytes, n: nat, got: seq<T>, rest: Bytes, xs: seq<T>)
    requires Decoding(sh, s, n, got, rest) && |got| < n
    requires ValidList(sh, xs) && |xs| == n && EncodeAll(sh, xs) == s
    ensures sh.valid(xs[|got|]) && Starts(sh.enc(xs[|got|]), rest) && xs[..|got|] == got
  {
    EncodeAllSplit(sh, xs, |got|);
    assert xs[|got|] in xs;
    assert s[|EncodeAll(sh, got)|..] == rest == EncodeAll(sh, xs[|got|..]);
    assert xs[|got|..][0] == xs[|got|];
  }

  /** One more record read. */
  lemma DecodedRecord<T(!new)>(sh: Shape<T>, s: Bytes, n: nat, got: seq<T>, rest: Bytes, x: T, rest': Bytes)
    requires PrefixCode(sh) && n < U64 && Decoding(sh, s, n, got, rest) && |got| < n
    requires sh.valid(x) && rest == sh.enc(x) + rest'
    requires Ascending(sh.less, got + [x])
    ensures Decoding(sh, s, n, got + [x], rest')
  {
    EncodeAllAppend(sh, got, x);
    Varint.Associate(EncodeAll(sh, got), sh.enc(x), rest');
    forall xs | ValidList(sh, xs) && |xs| == n && EncodeAll(sh, xs) == s ensures xs[..|got| + 1] == got + [x] {
      NextOf(sh, s, n, got, rest, xs);
      assert Starts(sh.enc(x), rest);
    }
  }

  /** No valid record stands at the position. */
  lemma NoRecord<T(!new)>(sh: Shape<T>, s: Bytes, n: nat, got: seq<T>, rest: Bytes)
    requires Decoding(sh, s, n, got, rest) && |got| < n
    requires forall x :: sh.valid(x) ==> !Starts(sh.enc(x), rest)
    ensures NoList(sh, s, n)
  {
    forall xs | ValidList(sh, xs) && |xs| == n ensures EncodeAll(sh, xs) != s {
      if EncodeAll(sh, xs) == s { NextOf(sh, s, n, got, rest, xs); }
    }
  }

  /** The record at the position is out of order. */
  lemma OutOfOrder<T(!new)>(sh: Shape<T>, s: Bytes, n: nat, got: seq<T>, rest: Bytes, x: T)
    requires PrefixCode(sh) && Decoding(sh, s, n, got, rest) && |got| < n
    requires sh.valid(x) && Starts(sh.enc(x), rest) && got != [] && !sh.less(got[|got| - 1], x)
    ensures NoList(sh, s, n)
  {
    forall xs | ValidList(sh, xs) && |xs| == n ensures EncodeAll(sh, xs) != s {
      if EncodeAll(sh, xs) == s {
        NextOf(sh, s, n, got, rest, xs);
      }
    }
  }

  /** Bytes are left over. */
  lemma Trailing<T(!new)>(sh: Shape<T>, s: Bytes, n: nat, got: seq<T>, rest: Bytes)
    requires Decoding(sh, s, n, got, rest) && |got| == n && rest != []
    ensures NoList(sh, s, n)
  {
    forall xs | ValidList(sh, xs) && |xs| == n ensures EncodeAll(sh, xs) != s {
      assert xs[..n] == xs;
    }
  }

  lemma AscendingAppend<T(!new)>(less: (T, T) -> bool, xs: seq<T>, x: T)
    requires StrictOrder(less) && Ascending(less, xs) && (xs != [] ==> less(xs[|xs| - 1], x))
    ensures Ascending(less, xs + [x])
  {
    forall i | 0 <= i < |xs| ensures less(xs[i], x) {
      if i < |xs| - 1 { assert less(xs[i], xs[|xs| - 1]); }
    }
  }

  /** A list is determined by its bytes. */
  lemma {:induction false} EncodeListInjective<T(!new)>(sh: Shape<T>, xs: seq<T>, ys: seq<T>)
    requires PrefixCode(sh) && ValidList(sh, xs) && ValidList(sh, ys) && EncodeList(sh, xs) == EncodeList(sh, ys)
    ensures xs == ys
  {
    Varint.EncodePrefixFree(|xs|, |ys|, EncodeList(sh, xs));
    var n := |Varint.Encode(|xs|)|;
    assert EncodeAll(sh, xs) == EncodeList(sh, xs)[n..] == EncodeAll(sh, ys);
    EncodeAllInjective(sh, xs, ys);
  }

  lemma {:induction false} EncodeAllInjective<T(!new)>(sh: Shape<T>, xs: seq<T>, ys: seq<T>)
    requires PrefixCode(sh) && |xs| == |ys| && EncodeAll(sh, xs) == EncodeAll(sh, ys)
    requires forall x :: x in xs ==> sh.valid(x)
    requires forall y :: y in ys ==> sh.valid(y)
    ensures xs == ys
  {
    if xs != [] {
      var s := EncodeAll(sh, xs);
      assert xs[0] in xs && ys[0] in ys && Starts(sh.enc(xs[0]), s) && Starts(sh.enc(ys[0]), s);
      assert xs[0] == ys[0];
      assert EncodeAll(sh, xs[1..]) == s[|sh.enc(xs[0])|..] == EncodeAll(sh, ys[1..]);
      EncodeAllInjective(sh, xs[1..], ys[1..]);
    }
  }
}
