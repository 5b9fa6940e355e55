/**
  varvig/internal/gitobj/pack.go, parseObjHeader: the type and size in front of a pack
  entry (gitformat-pack). The first byte holds three bits of type and four of size.
 */
module PackHeader {
  import opened Basics
  import opened Delta
  import Offsets
  import Varint

  /** The size of a complete header: four bits of the first byte, then seven of each byte after it. */
  function HeaderSize(b: Bytes): nat
    requires b != []
  {
    b[0] % 0x10 + 0x10 * Varint.Partial(b[1..], |b| - 1)
  }

  /** The shortest header of a type and a size. */
  function EncodeHeader(typ: nat, size: nat): Bytes
    requires typ < 8
  {
    if size < 0x10 then [0x10 * typ + size] else [0x80 + 0x10 * typ + size % 0x10] + Varint.Encode(size / 0x10)
  }

  lemma PartialOfEncoding(v: nat)
    ensures var b := Varint.Encode(v); Complete(b) && Varint.Partial(b, |b|) == v
  {
    var b := Varint.Encode(v);
    var i := Varint.EncodingStops(b, v);
    Varint.EncodingEnds(b, i, v);
  }

  /** A header says its type and its size, and is complete. */
  lemma HeaderRoundTrip(typ: nat, size: nat)
    requires typ < 8
    ensures var b := EncodeHeader(typ, size); Complete(b) && b[0] / 0x10 % 8 == typ && HeaderSize(b) == size
  {
    var b := EncodeHeader(typ, size);
    if size >= 0x10 {
      var rest := Varint.Encode(size / 0x10);
      PartialOfEncoding(size / 0x10);
      assert b[1..] == rest;
      forall k | 0 <= k < |b| - 1 ensures b[k] >= 0x80 { if k > 0 { assert b[k] == rest[k - 1]; } }
    }
  }

  lemma HeaderStep(b: Bytes, i: nat)
    requires 1 <= i < |b|
    ensures var low := b[0] % 0x10;
            ((low + 0x10 * Varint.Partial(b[1..], i - 1)) % U64 + 0x10 * Varint.Shift(b[i] % 0x80, i - 1)) % U64
            == (low + 0x10 * Varint.Partial(b[1..], i)) % U64
  {
    assert b[1..][i - 1] == b[i];
    AddModulo(b[0] % 0x10 + 0x10 * Varint.Partial(b[1..], i - 1), 0x10 * Varint.Shift(b[i] % 0x80, i - 1));
  }

  /** The header that ends at the first byte without the continuation bit. */
  lemma HeaderFound(b: Bytes, n: nat)
    requires 1 <= n <= |b| && Varint.Continued(b, n - 1) && b[n - 1] < 0x80
    ensures Complete(b[..n]) && HeaderSize(b[..n]) == b[0] % 0x10 + 0x10 * Varint.Partial(b[1..], n - 1)
    ensures forall typ: nat, size: nat :: typ < 8 && size < I63 && EncodeHeader(typ, size) <= b ==>
              b[0] / 0x10 % 8 == typ && Int64(HeaderSize(b[..n])) == size && n == |EncodeHeader(typ, size)|
  {
    var x := b[..n];
    PartialPrefix(x[1..], b[1..], n - 1);
    forall typ: nat, size: nat | typ < 8 && size < I63 && EncodeHeader(typ, size) <= b
      ensures b[0] / 0x10 % 8 == typ && Int64(HeaderSize(x)) == size && n == |EncodeHeader(typ, size)|
    {
      HeaderRoundTrip(typ, size);
      CompleteUnique(EncodeHeader(typ, size), x, b);
    }
  }

  /** parseObjHeader: length 0 is an error, on headers that never end; sizes wrap as int64. The bits or-ed in never overlap. */
  method ParseObjHeader(b: Bytes) returns (typ: nat, size: int, n: nat)
    ensures n == 0 <==> forall k :: 1 <= k <= |b| ==> !Complete(b[..k])
    ensures n > 0 ==> n <= |b| && Complete(b[..n]) && typ == b[0] / 0x10 % 8 && size == Int64(HeaderSize(b[..n]))
    ensures forall t: nat, v: nat :: t < 8 && v < I63 && EncodeHeader(t, v) <= b ==> typ == t && size == v && n == |EncodeHeader(t, v)|
  {
    if b == [] {
      forall t: nat, v: nat | t < 8 ensures !(EncodeHeader(t, v) <= b) { HeaderRoundTrip(t, v); }
      return 0, 0, 0;
    }
    var c := b[0];
    typ := c / 0x10 % 8;
    var bits: nat := c % 0x10;
    var i := 1;
    while c >= 0x80
      invariant 1 <= i <= |b| && c == b[i - 1] && bits == (b[0] % 0x10 + 0x10 * Varint.Partial(b[1..], i - 1)) % U64
      invariant Varint.Continued(b, i - 1)
      decreases |b| - i, c >= 0x80
    {
      if i >= |b| {
        NoHeader(b);
        return 0, 0, 0;
      }
      c := b[i];
      HeaderStep(b, i);
      bits := (bits + 0x10 * Varint.Shift(c % 0x80, i - 1)) % U64;
      i := i + 1;
    }
    HeaderFound(b, i);
    return typ, Int64(bits), i;
  }

  lemma NoHeader(b: Bytes)
    requires Varint.Continued(b, |b|)
    ensures forall k :: 1 <= k <= |b| ==> !Complete(b[..k])
    ensures forall t: nat, v: nat :: t < 8 ==> !(EncodeHeader(t, v) <= b)
  {
    Offsets.NoOffset(b);
    forall t: nat, v: nat | t < 8 ensures !(EncodeHeader(t, v) <= b) {
      HeaderRoundTrip(t, v);
      Offsets.Incomplete(b, EncodeHeader(t, v));
    }
  }

  /** One byte 0x95 0x0a: a commit of 165 bytes; a tree of 5 bytes is 0x25. */
  lemma SmallHeaders()
    ensures EncodeHeader(2, 5) == [0x25] && EncodeHeader(1, 165) == [0x95, 0x0a]
  {
    assert Varint.Encode(10) == [0x0a] && [0x80 + 0x10 + 5] + [0x0a] == [0x95, 0x0a];
  }
}
