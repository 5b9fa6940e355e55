/**
  varvig/internal/gitobj/pack.go, parseOfsOffset: the distance of an OFS_DELTA base
  (gitformat-pack). Every group but the last adds one before shifting, so that each
  number has exactly one encoding.
 */
module Offsets {
  import opened Basics
  import opened Delta
  import opened Orders
  import Varint

  /** The number the first n groups stand for. */
  function OfsValue(b: Bytes, n: nat): nat
    requires 1 <= n <= |b|
  {
    if n == 1 then b[0] % 0x80 else 0x80 * (OfsValue(b, n - 1) + 1) + b[n - 1] % 0x80
  }

  /** The groups before the last of a number that is not finished at v. */
  function OfsHigh(v: nat): Bytes {
    (if v < 0x80 then [] else OfsHigh(v / 0x80 - 1)) + [v % 0x80 + 0x80]
  }

  function EncodeOfs(v: nat): Bytes {
    (if v < 0x80 then [] else OfsHigh(v / 0x80 - 1)) + [v % 0x80]
  }

  lemma {:induction false} OfsPrefix(b: Bytes, c: Bytes, n: nat)
    requires 1 <= n <= |b| && n <= |c| && forall k :: 0 <= k < n ==> b[k] % 0x80 == c[k] % 0x80
    ensures OfsValue(b, n) == OfsValue(c, n)
  {
    if n > 1 { OfsPrefix(b, c, n - 1); }
  }

  lemma OfsAppend(h: Bytes, x: byte)
    requires |h| >= 1
    ensures OfsValue(h + [x], |h| + 1) == 0x80 * (OfsValue(h, |h|) + 1) + x % 0x80
  {
    OfsPrefix(h, h + [x], |h|);
  }

  lemma {:induction false} HighValue(v: nat)
    ensures Varint.Continued(OfsHigh(v), |OfsHigh(v)|) && |OfsHigh(v)| >= 1
    ensures OfsValue(OfsHigh(v), |OfsHigh(v)|) == v
  {
    if v < 0x80 {
      assert OfsHigh(v) == [v + 0x80];
    } else {
      HighValue(v / 0x80 - 1);
      OfsAppend(OfsHigh(v / 0x80 - 1), v % 0x80 + 0x80);
    }
  }

  /** Every number has a complete encoding. */
  lemma OfsRoundTrip(v: nat)
    ensures Complete(EncodeOfs(v)) && OfsValue(EncodeOfs(v), |EncodeOfs(v)|) == v
  {
    if v >= 0x80 {
      HighValue(v / 0x80 - 1);
      OfsAppend(OfsHigh(v / 0x80 - 1), v % 0x80);
    }
  }

  lemma Shorter(b: Bytes) returns (h: Bytes, x: byte)
    requires |b| > 1
    ensures b == h + [x] && OfsValue(b, |b|) == 0x80 * (OfsValue(h, |h|) + 1) + x % 0x80
  {
    h, x := b[..|b| - 1], b[|b| - 1];
    SplitLast(b);
    OfsAppend(h, x);
  }

  /** Groups that agree in their number and in which bytes continue are the same groups. */
  lemma {:induction false} GroupsInjective(b: Bytes, c: Bytes)
    requires b != [] && c != [] && OfsValue(b, |b|) == OfsValue(c, |c|)
    requires Varint.Continued(b, |b| - 1) && Varint.Continued(c, |c| - 1)
    requires b[|b| - 1] < 0x80 <==> c[|c| - 1] < 0x80
    ensures b == c
    decreases |b|
  {
    if |b| == 1 && |c| == 1 {
      assert b == [b[0]] && c == [c[0]];
    } else if |b| > 1 && |c| > 1 {
      var g, x := Shorter(b);
      var h, y := Shorter(c);
      assert x == b[|b| - 1] && y == c[|c| - 1];
      assert forall k :: 0 <= k < |g| ==> g[k] == b[k];
      assert forall k :: 0 <= k < |h| ==> h[k] == c[k];
      GroupsInjective(g, h);
    } else if |b| > 1 {
      var g, x := Shorter(b);
    } else {
      var h, y := Shorter(c);
    }
  }

  /** parseOfsOffset is injective on complete encodings: two of them never name the same base. */
  lemma OfsInjective(b: Bytes, c: Bytes)
    requires Complete(b) && Complete(c) && OfsValue(b, |b|) == OfsValue(c, |c|)
    ensures b == c
  {
    GroupsInjective(b, c);
  }

  lemma OfsStep(v: nat, c: nat)
    requires c < 0x80
    ensures (0x80 * (v % U64 + 1)) % U64 + c == (0x80 * (v + 1) + c) % U64
  {
    var q, r := v / U64, v % U64;
    assert v == U64 * q + r;
    var m := 0x80 * (r + 1);
    var q', r' := m / U64, m % U64;
    assert m == U64 * q' + r' && r' % 0x80 == 0;
    assert r' + c < U64;
    assert 0x80 * (v + 1) + c == U64 * (0x80 * q + q') + (r' + c);
    ModuloIs(0x80 * (v + 1) + c, 0x80 * q + q', r' + c);
  }

  lemma ModuloIs(x: nat, q: nat, r: nat)
    requires x == U64 * q + r && r < U64
    ensures x % U64 == r
  {
  }

  /** parseOfsOffset: the distance and its length; length 0 is an error. */
  method ParseOfsOffset(b: Bytes) returns (off: int, n: nat)
    ensures n == 0 <==> forall k :: 1 <= k <= |b| ==> !Complete(b[..k])
    ensures n > 0 ==> n <= |b| && Complete(b[..n]) && off == Int64(OfsValue(b[..n], n))
    ensures forall v: nat :: v < I63 && EncodeOfs(v) <= b ==> off == v && n == |EncodeOfs(v)|
  {
    if b == [] { return 0, 0; }
    var c := b[0];
    var bits: nat := c % 0x80;
    var i := 1;
    while c >= 0x80
      invariant 1 <= i <= |b| && c == b[i - 1] && bits == OfsValue(b, i) % U64
      invariant Varint.Continued(b, i - 1)
      decreases |b| - i, c >= 0x80
    {
      if i >= |b| {
        NoOffset(b);
        return 0, 0;
      }
      c := b[i];
      OfsStep(OfsValue(b, i), c % 0x80);
      assert OfsValue(b, i + 1) == 0x80 * (OfsValue(b, i) + 1) + c % 0x80;
      bits := (0x80 * (bits + 1)) % U64 + c % 0x80;
      i := i + 1;
    }
    OffsetFound(b, i);
    return Int64(bits), i;
  }

  lemma NoOffset(b: Bytes)
    requires Varint.Continued(b, |b|)
    ensures forall k :: 1 <= k <= |b| ==> !Complete(b[..k])
    ensures forall v: nat :: v < I63 ==> !(EncodeOfs(v) <= b)
  {
    forall v: nat ensures !(EncodeOfs(v) <= b) {
      OfsRoundTrip(v);
      Incomplete(b, EncodeOfs(v));
    }
  }

  lemma OffsetFound(b: Bytes, n: nat)
    requires 1 <= n <= |b| && Varint.Continued(b, n - 1) && b[n - 1] < 0x80
    ensures Complete(b[..n]) && OfsValue(b, n) == OfsValue(b[..n], n)
    ensures forall v: nat :: v < I63 && EncodeOfs(v) <= b ==> Int64(OfsValue(b, n)) == v && n == |EncodeOfs(v)|
  {
    var x := b[..n];
    assert Complete(x);
    OfsPrefix(b, x, n);
    forall v: nat | v < I63 && EncodeOfs(v) <= b ensures Int64(OfsValue(b, n)) == v && n == |EncodeOfs(v)| {
      OfsRoundTrip(v);
      CompleteUnique(EncodeOfs(v), x, b);
    }
  }

  lemma Incomplete(b: Bytes, x: Bytes)
    requires Varint.Continued(b, |b|) && Complete(x)
    ensures !(x <= b)
  {
  }
}
